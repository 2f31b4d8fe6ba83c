/** Accommodation assignments: the `accommodations` table, its request validation, the family
    filter of `getByHofIts` and the name enrichment of the listings. */
module Accommodation {
  import opened Common
  import opened Request
  import Mumineen
  import Miqaat

  /** A row of the `accommodations` table. There is no `room_number` column. */
  datatype Accommodation = Accommodation(
    id: nat,
    itsId: string,
    miqaatId: nat,
    name: string,
    city: string,
    pincode: Option<string>,
    accommodationType: string,
    checkIn: int,
    checkOut: int)

  /** The request keys mass assignment lets through; `room_number` is not among them. */
  const Fillable: set<string> :=
    {"its_id", "miqaat_id", "name", "city", "pincode", "accommodation_type", "check_in_date", "check_out_date"}

  function Ids(rows: seq<Accommodation>): set<nat>
  {
    set a | a in rows :: a.id
  }

  /** `Accommodation::find`. */
  function Find(rows: seq<Accommodation>, id: nat): (r: Option<Accommodation>)
    ensures r.Some? <==> id in Ids(rows)
    ensures r.Some? ==> r.value in rows && r.value.id == id
  {
    if rows == [] then None
    else if rows[0].id == id then Some(rows[0])
    else
      var r := Find(rows[1..], id);
      assert Ids(rows) == {rows[0].id} + Ids(rows[1..]);
      r
  }

  // ---------------------------------------------------------------- validation

  /** The rules of `store`. `inMumineens` is the `exists:mumineens,its_id` rule, which names a
      table other than the member table and is left abstract; `miqaatIds` are the ids of the
      event table. */
  predicate StoreAccepted(miqaatIds: set<nat>, inMumineens: string -> bool, req: Req)
  {
    var itsId := Get(req, "its_id");
    var miqaatId := AsId(Get(req, "miqaat_id"));
    && FieldOk(req, "its_id", true, false, IsString(itsId) && inMumineens(TextOf(itsId)))
    && FieldOk(req, "miqaat_id", true, false, miqaatId.Some? && miqaatId.value in miqaatIds)
    && FieldOk(req, "name", true, false, StringMax(Get(req, "name"), 255))
    && FieldOk(req, "city", true, false, StringMax(Get(req, "city"), 255))
    && FieldOk(req, "pincode", false, true, StringMax(Get(req, "pincode"), 20))
    && FieldOk(req, "accommodation_type", true, false, StringMax(Get(req, "accommodation_type"), 100))
    && FieldOk(req, "room_number", false, true, StringMax(Get(req, "room_number"), 50))
    && FieldOk(req, "check_in_date", true, false, Get(req, "check_in_date").Date?)
    && FieldOk(req, "check_out_date", true, false, DateNotBefore(req, "check_in_date", Get(req, "check_out_date")))
  }

  /** The rules of `update`: the same checks with every field optional. */
  predicate UpdateAccepted(miqaatIds: set<nat>, inMumineens: string -> bool, req: Req)
  {
    var itsId := Get(req, "its_id");
    var miqaatId := AsId(Get(req, "miqaat_id"));
    && FieldOk(req, "its_id", false, false, IsString(itsId) && inMumineens(TextOf(itsId)))
    && FieldOk(req, "miqaat_id", false, false, miqaatId.Some? && miqaatId.value in miqaatIds)
    && FieldOk(req, "name", false, false, StringMax(Get(req, "name"), 255))
    && FieldOk(req, "city", false, false, StringMax(Get(req, "city"), 255))
    && FieldOk(req, "pincode", false, true, StringMax(Get(req, "pincode"), 20))
    && FieldOk(req, "accommodation_type", false, false, StringMax(Get(req, "accommodation_type"), 100))
    && FieldOk(req, "room_number", false, true, StringMax(Get(req, "room_number"), 50))
    && FieldOk(req, "check_in_date", false, false, Get(req, "check_in_date").Date?)
    && FieldOk(req, "check_out_date", false, false, DateNotBefore(req, "check_in_date", Get(req, "check_out_date")))
  }

  /** What an accepted `store` request holds: a member id passing the exists rule, an existing
      event, a name and a city of at most 255 characters, a type of at most 100 and two dates with
      the check-out not before the check-in (the same day is allowed). */
  lemma StoreAcceptedMeans(miqaatIds: set<nat>, inMumineens: string -> bool, req: Req)
    requires StoreAccepted(miqaatIds, inMumineens, req)
    ensures IsString(req["its_id"]) && inMumineens(TextOf(req["its_id"]))
    ensures AsId(req["miqaat_id"]).Some? && AsId(req["miqaat_id"]).value in miqaatIds
    ensures StringMax(req["name"], 255) && StringMax(req["city"], 255) && StringMax(req["accommodation_type"], 100)
    ensures req["check_in_date"].Date? && req["check_out_date"].Date?
    ensures req["check_out_date"].instant >= req["check_in_date"].instant
  {
  }

  /** A request that leaves out any required field, or whose check-out precedes its check-in, is
      refused. */
  lemma StoreRejections(miqaatIds: set<nat>, inMumineens: string -> bool, req: Req)
    ensures (|| "its_id" !in req || "miqaat_id" !in req || "name" !in req || "city" !in req
             || "accommodation_type" !in req || "check_in_date" !in req || "check_out_date" !in req)
      ==> !StoreAccepted(miqaatIds, inMumineens, req)
    ensures (Get(req, "check_in_date").Date? && Get(req, "check_out_date").Date?
             && Get(req, "check_out_date").instant < Get(req, "check_in_date").instant)
      ==> !StoreAccepted(miqaatIds, inMumineens, req)
  {
  }

  // ---------------------------------------------------------------- building rows

  /** The row `Accommodation::create($request->all())` builds with the next id, `None` when a
      non-null column cannot hold the value given. */
  function NewAccommodation(id: nat, req: Req): (r: Option<Accommodation>)
    ensures r.Some? ==> r.value.id == id
    ensures r.Some? ==> r.value.pincode == OptText(Get(req, "pincode"))
  {
    RestrictGet(req, Fillable, "pincode");
    var f := Restrict(req, Fillable);
    var itsId := Get(f, "its_id");
    var miqaatId := AsId(Get(f, "miqaat_id"));
    var name := Get(f, "name");
    var city := Get(f, "city");
    var kind := Get(f, "accommodation_type");
    var checkIn := Get(f, "check_in_date");
    var checkOut := Get(f, "check_out_date");
    if IsString(itsId) && miqaatId.Some? && IsString(name) && IsString(city) && IsString(kind)
       && checkIn.Date? && checkOut.Date?
    then
      Some(Accommodation(id, TextOf(itsId), miqaatId.value, TextOf(name), TextOf(city),
                         OptText(Get(f, "pincode")), TextOf(kind), checkIn.instant, checkOut.instant))
    else None
  }

  /** An accepted `store` request builds a row holding the request's values, with the check-out
      not before the check-in. */
  lemma StoreBuilds(miqaatIds: set<nat>, inMumineens: string -> bool, id: nat, req: Req)
    requires StoreAccepted(miqaatIds, inMumineens, req)
    ensures NewAccommodation(id, req).Some?
    ensures var a := NewAccommodation(id, req).value;
      && a.itsId == TextOf(req["its_id"]) && inMumineens(a.itsId)
      && a.miqaatId in miqaatIds && Some(a.miqaatId) == AsId(req["miqaat_id"])
      && a.name == TextOf(req["name"]) && a.city == TextOf(req["city"])
      && a.pincode == OptText(Get(req, "pincode"))
      && a.accommodationType == TextOf(req["accommodation_type"])
      && a.checkIn == req["check_in_date"].instant && a.checkOut == req["check_out_date"].instant
      && a.checkIn <= a.checkOut
  {
    var f := Restrict(req, Fillable);
    assert Get(f, "its_id") == req["its_id"] && Get(f, "miqaat_id") == req["miqaat_id"];
    assert Get(f, "name") == req["name"] && Get(f, "city") == req["city"];
    assert Get(f, "accommodation_type") == req["accommodation_type"];
    assert Get(f, "check_in_date") == req["check_in_date"] && Get(f, "check_out_date") == req["check_out_date"];
  }

  /** A key that is not fillable (`room_number`, the client's `mumineen_name`) is dropped. */
  lemma NewIgnoresOtherKeys(id: nat, req: Req, k: string, v: Value)
    requires k !in Fillable
    ensures NewAccommodation(id, req[k := v]) == NewAccommodation(id, req)
  {
    assert Restrict(req[k := v], Fillable) == Restrict(req, Fillable);
  }

  /** A value of the fillable part of an update that a non-null column cannot hold. */
  predicate Unstorable(f: Req)
  {
    || ("its_id" in f && !IsString(f["its_id"]))
    || ("miqaat_id" in f && AsId(f["miqaat_id"]).None?)
    || ("name" in f && !IsString(f["name"]))
    || ("city" in f && !IsString(f["city"]))
    || ("accommodation_type" in f && !IsString(f["accommodation_type"]))
    || ("check_in_date" in f && !f["check_in_date"].Date?)
    || ("check_out_date" in f && !f["check_out_date"].Date?)
  }

  /** `$accommodation->update($request->all())`: each fillable field present replaces the row's
      (`UpdateWrites` states the values), `None` when a value present cannot be stored in its
      column. */
  function ApplyUpdate(a: Accommodation, req: Req): (r: Option<Accommodation>)
    ensures r.None? <==> Unstorable(Restrict(req, Fillable))
    ensures r.Some? ==> r.value.id == a.id
    ensures req.Keys !! Fillable ==> r == Some(a)
  {
    var f := Restrict(req, Fillable);
    if Unstorable(f) then None
    else
      Some(Accommodation(
        a.id,
        if "its_id" in f then TextOf(f["its_id"]) else a.itsId,
        if "miqaat_id" in f then AsId(f["miqaat_id"]).value else a.miqaatId,
        if "name" in f then TextOf(f["name"]) else a.name,
        if "city" in f then TextOf(f["city"]) else a.city,
        if "pincode" in f then OptText(f["pincode"]) else a.pincode,
        if "accommodation_type" in f then TextOf(f["accommodation_type"]) else a.accommodationType,
        if "check_in_date" in f then f["check_in_date"].instant else a.checkIn,
        if "check_out_date" in f then f["check_out_date"].instant else a.checkOut))
  }

  /** The row an update writes: each fillable field the request carries takes the request's
      value, every other column keeps the row's. */
  lemma UpdateWrites(a: Accommodation, req: Req)
    requires ApplyUpdate(a, req).Some?
    ensures var u := ApplyUpdate(a, req).value;
      && u.id == a.id
      && (u.itsId == if "its_id" in req then TextOf(req["its_id"]) else a.itsId)
      && (Some(u.miqaatId) == if "miqaat_id" in req then AsId(req["miqaat_id"]) else Some(a.miqaatId))
      && (u.name == if "name" in req then TextOf(req["name"]) else a.name)
      && (u.city == if "city" in req then TextOf(req["city"]) else a.city)
      && (u.pincode == if "pincode" in req then OptText(req["pincode"]) else a.pincode)
      && (u.accommodationType == if "accommodation_type" in req then TextOf(req["accommodation_type"]) else a.accommodationType)
      && (u.checkIn == if "check_in_date" in req then req["check_in_date"].instant else a.checkIn)
      && (u.checkOut == if "check_out_date" in req then req["check_out_date"].instant else a.checkOut)
  {
    RestrictGet(req, Fillable, "its_id");
    RestrictGet(req, Fillable, "miqaat_id");
    RestrictGet(req, Fillable, "name");
    RestrictGet(req, Fillable, "city");
    RestrictGet(req, Fillable, "pincode");
    RestrictGet(req, Fillable, "accommodation_type");
    RestrictGet(req, Fillable, "check_in_date");
    RestrictGet(req, Fillable, "check_out_date");
  }

  /** A key that is not fillable (`room_number`, the client's `mumineen_name`) is dropped by an
      update too. */
  lemma UpdateIgnoresOtherKeys(a: Accommodation, req: Req, k: string, v: Value)
    requires k !in Fillable
    ensures ApplyUpdate(a, req[k := v]) == ApplyUpdate(a, req)
  {
    assert Restrict(req[k := v], Fillable) == Restrict(req, Fillable);
  }

  /** An accepted update with no blank value always reaches the table. */
  lemma UpdateStorable(miqaatIds: set<nat>, inMumineens: string -> bool, a: Accommodation, req: Req)
    requires UpdateAccepted(miqaatIds, inMumineens, req)
    requires forall k :: k in req ==> !IsBlankValue(req[k])
    ensures ApplyUpdate(a, req).Some?
  {
  }

  /** The table after the row `a.id` is written back as `a`. */
  function ReplaceById(rows: seq<Accommodation>, a: Accommodation): (r: seq<Accommodation>)
  {
    seq(|rows|, i requires 0 <= i < |rows| => if rows[i].id == a.id then a else rows[i])
  }

  function Key(a: Accommodation): int
  {
    a.id
  }

  /** The rows a delete of accommodation `id` keeps. */
  function OtherThan(id: nat): Accommodation -> bool
  {
    (a: Accommodation) => a.id != id
  }

  /** The rows the cascade from a delete of miqaat `id` keeps. */
  function OutsideMiqaat(id: nat): Accommodation -> bool
  {
    (a: Accommodation) => a.miqaatId != id
  }

  // ---------------------------------------------------------------- queries

  /** `show` without the enrichment. */
  function Show(rows: seq<Accommodation>, id: nat): (r: Response<Accommodation>)
    ensures r.NotFound? <==> id !in Ids(rows)
    ensures r.Ok? || r.NotFound?
    ensures r.Ok? ==> r.value in rows && r.value.id == id
  {
    match Find(rows, id)
    case None => NotFound
    case Some(a) => Ok(a)
  }

  /** The `its_id`s `getByHofIts` plucks: the member `h` and the members linked to `h`. */
  function FamilyIds(members: seq<Mumineen.Member>, h: string): (r: set<string>)
    ensures forall k :: k in r <==> exists m :: m in members && m.itsId == k && (m.hofItsId == Some(h) || m.itsId == h)
  {
    set m | m in members && (m.hofItsId == Some(h) || m.itsId == h) :: m.itsId
  }

  /** The family id set is the set of `its_id`s of the member controller's family listing. */
  lemma FamilyIdsAgree(members: seq<Mumineen.Member>, h: string)
    requires Mumineen.FamilyByHof(members, h).Ok?
    ensures FamilyIds(members, h) == set m | m in Mumineen.FamilyByHof(members, h).value :: m.itsId
  {
    var fam := Mumineen.FamilyByHof(members, h).value;
    var w :| w in fam && w.itsId == h;
    forall k | k in FamilyIds(members, h) ensures exists m :: m in fam && m.itsId == k {
      var m :| m in members && m.itsId == k && (m.hofItsId == Some(h) || m.itsId == h);
      if m.hofItsId != Some(h) {
        assert w in fam && w.itsId == k;
      } else {
        assert m in fam;
      }
    }
  }

  /** The rows `getByHofIts` returns, in storage order. */
  function FamilyAccommodations(members: seq<Mumineen.Member>, rows: seq<Accommodation>, h: string): (r: seq<Accommodation>)
    ensures forall a :: a in r <==> a in rows && a.itsId in FamilyIds(members, h)
    ensures IsSubsequence(r, rows)
  {
    var ids := FamilyIds(members, h);
    Filter(rows, (a: Accommodation) => a.itsId in ids)
  }

  /** `getByHofIts`: "not found" when no member is `h`; otherwise exactly the accommodations of
      `h` and of the members whose head of family is `h`. */
  function GetByHofIts(members: seq<Mumineen.Member>, rows: seq<Accommodation>, h: string): (r: Response<seq<Accommodation>>)
    ensures r.NotFound? <==> h !in Mumineen.Keys(members)
    ensures r.Ok? || r.NotFound?
    ensures r.Ok? ==> forall a :: a in r.value <==>
      a in rows && (a.itsId == h || exists m :: m in members && m.itsId == a.itsId && m.hofItsId == Some(h))
  {
    if h !in Mumineen.Keys(members) then NotFound
    else Ok(FamilyAccommodations(members, rows, h))
  }

  /** A listed accommodation with the names the controller adds. */
  datatype Listed = Listed(row: Accommodation, mumineenName: string, miqaatName: string)

  /** The `map` callback: `mumineen_name` is the holder's full name and `miqaat_name` the event's
      name, each "Unknown" when the related row is missing. */
  function Listing(members: seq<Mumineen.Member>, miqaats: seq<Miqaat.Miqaat>, a: Accommodation): (l: Listed)
    ensures l.row == a
    ensures a.itsId in Mumineen.Keys(members) ==>
      exists m :: m in members && m.itsId == a.itsId && l.mumineenName == m.fullName
    ensures a.itsId !in Mumineen.Keys(members) ==> l.mumineenName == "Unknown"
    ensures a.miqaatId in Miqaat.Ids(miqaats) ==>
      exists e :: e in miqaats && e.id == a.miqaatId && l.miqaatName == e.name
    ensures a.miqaatId !in Miqaat.Ids(miqaats) ==> l.miqaatName == "Unknown"
  {
    var holder := Mumineen.Find(members, a.itsId);
    var event := Miqaat.Find(miqaats, a.miqaatId);
    Listed(a,
           if holder.Some? then holder.value.fullName else "Unknown",
           if event.Some? then event.value.name else "Unknown")
  }

  /** The listing loop of `index` and `getByHofIts`: every row, in order, with its names. */
  method Enrich(members: seq<Mumineen.Member>, miqaats: seq<Miqaat.Miqaat>, rows: seq<Accommodation>)
    returns (out: seq<Listed>)
    ensures |out| == |rows|
    ensures forall i :: 0 <= i < |rows| ==> out[i] == Listing(members, miqaats, rows[i])
  {
    out := [];
    var i := 0;
    while i < |rows|
      invariant 0 <= i <= |rows|
      invariant |out| == i
      invariant forall j :: 0 <= j < i ==> out[j] == Listing(members, miqaats, rows[j])
    {
      out := out + [Listing(members, miqaats, rows[i])];
      i := i + 1;
    }
  }
}
