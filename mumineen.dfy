/** The member registry: the `mumineen` table, its request validation and the family queries of
    the member controller. The table is a sequence of rows in storage order. */
module Mumineen {
  import opened Common
  import opened Text
  import opened Request

  datatype Gender = Male | Female

  /** A row of the `mumineen` table. `itsId` is the primary key, a string the caller supplies (it
      is not auto-incremented); `hofItsId` names the member's head of family. */
  datatype Member = Member(
    itsId: string,
    eitsId: Option<string>,
    hofItsId: Option<string>,
    fullName: string,
    gender: Gender,
    age: Option<int>,
    mobile: Option<string>,
    country: Option<string>)

  /** The request keys mass assignment lets through. */
  const Fillable: set<string> :=
    {"its_id", "eits_id", "hof_its_id", "full_name", "gender", "age", "mobile", "country"}

  const Genders: set<string> := {"male", "female"}

  function Keys(rows: seq<Member>): set<string>
  {
    set m | m in rows :: m.itsId
  }

  /** The primary key: no two rows share an `its_id`. */
  predicate UniqueKeys(rows: seq<Member>)
  {
    forall i, j :: 0 <= i < j < |rows| ==> rows[i].itsId != rows[j].itsId
  }

  /** The self foreign key: a non-null `hof_its_id` names an existing row. */
  predicate LinksResolve(rows: seq<Member>)
  {
    forall m :: m in rows && m.hofItsId.Some? ==> m.hofItsId.value in Keys(rows)
  }

  /** The row with primary key `k` (`Mumineen::find`). */
  function Find(rows: seq<Member>, k: string): (r: Option<Member>)
    ensures r.Some? <==> k in Keys(rows)
    ensures r.Some? ==> r.value in rows && r.value.itsId == k
  {
    if rows == [] then None
    else if rows[0].itsId == k then Some(rows[0])
    else
      var r := Find(rows[1..], k);
      assert Keys(rows) == {rows[0].itsId} + Keys(rows[1..]);
      r
  }

  /** Under the primary key, the row found is the only row with that key. */
  lemma {:induction false} FindUnique(rows: seq<Member>, m: Member)
    requires UniqueKeys(rows) && m in rows
    ensures Find(rows, m.itsId) == Some(m)
  {
    if rows[0] != m {
      assert m in rows[1..];
      FindUnique(rows[1..], m);
    }
  }

  /** A member is a head of family when the link is null or points at the member itself. */
  predicate IsHof(m: Member)
  {
    m.hofItsId == None || m.hofItsId == Some(m.itsId)
  }

  predicate IsDependentOf(m: Member, hofItsId: string)
  {
    m.hofItsId == Some(hofItsId)
  }

  // ---------------------------------------------------------------- model relations

  /** `headOfFamily`: the row whose `its_id` is this row's `hof_its_id`. */
  function HeadOfFamily(rows: seq<Member>, m: Member): (r: Option<Member>)
    ensures r.Some? <==> m.hofItsId.Some? && m.hofItsId.value in Keys(rows)
    ensures r.Some? ==> r.value in rows && Some(r.value.itsId) == m.hofItsId
  {
    if m.hofItsId.None? then None else Find(rows, m.hofItsId.value)
  }

  /** `familyMembers`: the rows whose `hof_its_id` is this row's `its_id`, in storage order. */
  function FamilyMembers(rows: seq<Member>, m: Member): (r: seq<Member>)
    ensures forall x :: x in r <==> x in rows && IsDependentOf(x, m.itsId)
    ensures IsSubsequence(r, rows)
  {
    Dependents(rows, m.itsId)
  }

  /** A head of family that links to itself is one of its own family members. */
  lemma SelfLinkedHofIsOwnFamilyMember(rows: seq<Member>, m: Member)
    requires m in rows && m.hofItsId == Some(m.itsId)
    ensures m in FamilyMembers(rows, m)
  {
  }

  function Dependents(rows: seq<Member>, h: string): (r: seq<Member>)
    ensures forall x :: x in r <==> x in rows && IsDependentOf(x, h)
    ensures IsSubsequence(r, rows)
  {
    Filter(rows, (x: Member) => IsDependentOf(x, h))
  }

  // ---------------------------------------------------------------- validation

  /** The rules of `store`. */
  predicate StoreAccepted(rows: seq<Member>, req: Req)
  {
    var itsId := Get(req, "its_id");
    var hof := Get(req, "hof_its_id");
    && FieldOk(req, "its_id", true, false, IsString(itsId) && TextOf(itsId) !in Keys(rows))
    && FieldOk(req, "eits_id", false, true, IsString(Get(req, "eits_id")))
    && FieldOk(req, "hof_its_id", false, true, IsString(hof) && TextOf(hof) in Keys(rows))
    && FieldOk(req, "full_name", true, false, StringMax(Get(req, "full_name"), 255))
    && FieldOk(req, "gender", true, false, StringIn(Get(req, "gender"), Genders))
    && FieldOk(req, "age", false, true, IsIntegerValue(Get(req, "age")))
    && FieldOk(req, "mobile", false, true, StringMax(Get(req, "mobile"), 20))
    && FieldOk(req, "country", false, true, StringMax(Get(req, "country"), 100))
  }

  /** The rules of `update`: every field is optional, and the uniqueness of `its_id` ignores the
      row being updated. `hof_its_id` is only checked for existence. */
  predicate UpdateAccepted(rows: seq<Member>, id: string, req: Req)
  {
    var itsId := Get(req, "its_id");
    var hof := Get(req, "hof_its_id");
    && FieldOk(req, "its_id", false, false,
         IsString(itsId) && (TextOf(itsId) == id || TextOf(itsId) !in Keys(rows)))
    && FieldOk(req, "eits_id", false, true, IsString(Get(req, "eits_id")))
    && FieldOk(req, "hof_its_id", false, true, IsString(hof) && TextOf(hof) in Keys(rows))
    && FieldOk(req, "full_name", false, false, StringMax(Get(req, "full_name"), 255))
    && FieldOk(req, "gender", false, false, StringIn(Get(req, "gender"), Genders))
    && FieldOk(req, "age", false, true, IsIntegerValue(Get(req, "age")))
    && FieldOk(req, "mobile", false, true, StringMax(Get(req, "mobile"), 20))
    && FieldOk(req, "country", false, true, StringMax(Get(req, "country"), 100))
  }

  /** Each reason `store` answers 422 for. */
  lemma StoreRejections(rows: seq<Member>, req: Req)
    ensures "its_id" !in req ==> !StoreAccepted(rows, req)
    ensures StringIn(Get(req, "its_id"), Keys(rows)) ==> !StoreAccepted(rows, req)
    ensures "full_name" !in req ==> !StoreAccepted(rows, req)
    ensures IsString(Get(req, "full_name")) && |TextOf(Get(req, "full_name"))| > 255 ==> !StoreAccepted(rows, req)
    ensures ("gender" !in req || (IsString(Get(req, "gender")) && TextOf(Get(req, "gender")) !in Genders))
      ==> !StoreAccepted(rows, req)
    ensures (IsString(Get(req, "hof_its_id")) && !IsBlank(TextOf(Get(req, "hof_its_id")))
             && TextOf(Get(req, "hof_its_id")) !in Keys(rows))
      ==> !StoreAccepted(rows, req)
  {
  }

  // ---------------------------------------------------------------- building rows

  function TextOr(v: Value, default: string): string
  {
    if IsString(v) then TextOf(v) else default
  }

  function OptInt(v: Value): Option<int>
  {
    if IsIntegerValue(v) then Some(IntegerOf(v)) else None
  }


  /** The row `Mumineen::create($request->all())` builds: the fields are read from the fillable
      part of the request only, absent nullable fields are null. */
  function NewMember(req: Req): (m: Member)
    ensures IsString(Get(req, "its_id")) ==> m.itsId == TextOf(Get(req, "its_id"))
    ensures m.eitsId == OptText(Get(req, "eits_id"))
    ensures m.hofItsId == OptText(Get(req, "hof_its_id"))
    ensures IsString(Get(req, "full_name")) ==> m.fullName == TextOf(Get(req, "full_name"))
    ensures StringIn(Get(req, "gender"), Genders) ==> (m.gender == Female <==> TextOf(Get(req, "gender")) == "female")
    ensures m.age == OptInt(Get(req, "age"))
    ensures m.mobile == OptText(Get(req, "mobile")) && m.country == OptText(Get(req, "country"))
  {
    var f := Restrict(req, Fillable);
    RestrictGet(req, Fillable, "its_id");
    RestrictGet(req, Fillable, "eits_id");
    RestrictGet(req, Fillable, "hof_its_id");
    RestrictGet(req, Fillable, "full_name");
    RestrictGet(req, Fillable, "gender");
    RestrictGet(req, Fillable, "age");
    RestrictGet(req, Fillable, "mobile");
    RestrictGet(req, Fillable, "country");
    Member(
      TextOr(Get(f, "its_id"), ""),
      OptText(Get(f, "eits_id")),
      OptText(Get(f, "hof_its_id")),
      TextOr(Get(f, "full_name"), ""),
      if TextOr(Get(f, "gender"), "") == "female" then Female else Male,
      OptInt(Get(f, "age")),
      OptText(Get(f, "mobile")),
      OptText(Get(f, "country")))
  }

  /** An accepted `store` request builds the row from the request: the new key, the name of at
      most 255 characters and the gender, and each optional column from its field, null when the
      field is absent, null or blank. */
  lemma StoreBuilds(rows: seq<Member>, req: Req)
    requires StoreAccepted(rows, req)
    ensures var m := NewMember(req);
      && IsString(req["its_id"]) && m.itsId == TextOf(req["its_id"]) && m.itsId !in Keys(rows)
      && IsString(req["full_name"]) && m.fullName == TextOf(req["full_name"]) && |m.fullName| <= 255
      && StringIn(req["gender"], Genders) && (m.gender == Female <==> TextOf(req["gender"]) == "female")
      && m.eitsId == OptText(Get(req, "eits_id"))
      && m.hofItsId == OptText(Get(req, "hof_its_id"))
      && (m.hofItsId.Some? && !IsBlank(m.hofItsId.value) ==> m.hofItsId.value in Keys(rows))
      && ("age" in req && req["age"] != Null && !IsBlankValue(req["age"]) ==> m.age == Some(IntegerOf(req["age"])))
      && ("age" !in req || req["age"] == Null ==> m.age == None)
      && m.mobile == OptText(Get(req, "mobile")) && (m.mobile.Some? ==> |m.mobile.value| <= 20 || IsBlank(m.mobile.value))
      && m.country == OptText(Get(req, "country")) && (m.country.Some? ==> |m.country.value| <= 100 || IsBlank(m.country.value))
  {
    var m := NewMember(req);
    if "hof_its_id" in req && m.hofItsId.Some? && !IsBlank(m.hofItsId.value) {
      assert !IsBlankValue(req["hof_its_id"]);
    }
    if "mobile" in req && m.mobile.Some? && !IsBlank(m.mobile.value) {
      assert !IsBlankValue(req["mobile"]);
    }
    if "country" in req && m.country.Some? && !IsBlank(m.country.value) {
      assert !IsBlankValue(req["country"]);
    }
  }

  /** A request key outside the fillable list has no effect on the row created. */
  lemma NewMemberIgnoresOtherKeys(req: Req, k: string, v: Value)
    requires k !in Fillable
    ensures NewMember(req[k := v]) == NewMember(req)
  {
    assert Restrict(req[k := v], Fillable) == Restrict(req, Fillable);
  }

  /** A value a column cannot hold: the validator skips blank strings, and a blank `gender` or
      `age` then fails in the store. */
  predicate Unstorable(f: Req)
  {
    || ("gender" in f && !StringIn(f["gender"], Genders))
    || ("age" in f && f["age"] != Null && !IsIntegerValue(f["age"]))
  }

  /** `$mumineen->update($request->all())`: the fillable fields present in the request replace
      the row's, the others keep their value; `None` when a value cannot be stored. */
  function ApplyUpdate(m: Member, req: Req): (r: Option<Member>)
    ensures r.None? <==> Unstorable(Restrict(req, Fillable))
    ensures r.Some? ==> (r.value.itsId == if "its_id" in req then TextOr(req["its_id"], m.itsId) else m.itsId)
    ensures r.Some? ==> (r.value.hofItsId == if "hof_its_id" in req then OptText(req["hof_its_id"]) else m.hofItsId)
    ensures r.Some? ==> (r.value.fullName == if "full_name" in req then TextOr(req["full_name"], m.fullName) else m.fullName)
    ensures r.Some? ==> (r.value.eitsId == if "eits_id" in req then OptText(req["eits_id"]) else m.eitsId)
    ensures r.Some? && "gender" in req ==>
      StringIn(req["gender"], Genders) && (r.value.gender == Female <==> TextOf(req["gender"]) == "female")
    ensures r.Some? && "gender" !in req ==> r.value.gender == m.gender
    ensures r.Some? ==> (r.value.age == if "age" in req then OptInt(req["age"]) else m.age)
    ensures r.Some? ==> (r.value.mobile == if "mobile" in req then OptText(req["mobile"]) else m.mobile)
    ensures r.Some? ==> (r.value.country == if "country" in req then OptText(req["country"]) else m.country)
    ensures req.Keys !! Fillable ==> r == Some(m)
  {
    var f := Restrict(req, Fillable);
    RestrictGet(req, Fillable, "its_id");
    RestrictGet(req, Fillable, "eits_id");
    RestrictGet(req, Fillable, "hof_its_id");
    RestrictGet(req, Fillable, "full_name");
    RestrictGet(req, Fillable, "gender");
    RestrictGet(req, Fillable, "age");
    RestrictGet(req, Fillable, "mobile");
    RestrictGet(req, Fillable, "country");
    if Unstorable(f) then None
    else
      Some(Member(
        if "its_id" in f then TextOr(f["its_id"], m.itsId) else m.itsId,
        if "eits_id" in f then OptText(f["eits_id"]) else m.eitsId,
        if "hof_its_id" in f then OptText(f["hof_its_id"]) else m.hofItsId,
        if "full_name" in f then TextOr(f["full_name"], m.fullName) else m.fullName,
        if "gender" in f then (if TextOf(f["gender"]) == "female" then Female else Male) else m.gender,
        if "age" in f then OptInt(f["age"]) else m.age,
        if "mobile" in f then OptText(f["mobile"]) else m.mobile,
        if "country" in f then OptText(f["country"]) else m.country))
  }

  /** A request key outside the fillable list has no effect on an update. */
  lemma UpdateIgnoresOtherKeys(m: Member, req: Req, k: string, v: Value)
    requires k !in Fillable
    ensures ApplyUpdate(m, req[k := v]) == ApplyUpdate(m, req)
  {
    assert Restrict(req[k := v], Fillable) == Restrict(req, Fillable);
  }

  /** The rows left after deleting `k`: the row itself goes and, by the `set null` action of the
      self foreign key, every link to it becomes null. */
  function DeleteRow(rows: seq<Member>, k: string): (r: seq<Member>)
    ensures |r| <= |rows|
    ensures Keys(r) == Keys(rows) - {k}
    ensures forall m :: m in r ==> m.hofItsId != Some(k)
  {
    if rows == [] then []
    else
      var rest := DeleteRow(rows[1..], k);
      assert Keys(rows) == {rows[0].itsId} + Keys(rows[1..]);
      if rows[0].itsId == k then rest
      else
        var m := rows[0];
        var m' := if m.hofItsId == Some(k) then m.(hofItsId := None) else m;
        assert Keys([m'] + rest) == {m'.itsId} + Keys(rest);
        [m'] + rest
  }

  /** The table after the row with key `k` is written back as `m`. */
  function ReplaceRow(rows: seq<Member>, k: string, m: Member): (r: seq<Member>)
  {
    seq(|rows|, i requires 0 <= i < |rows| => if rows[i].itsId == k then m else rows[i])
  }

  /** An accepted `store` whose `hof_its_id` is not a blank string adds a row that keeps the
      primary key and the self foreign key. */
  lemma StoreKeepsKeys(rows: seq<Member>, req: Req)
    requires UniqueKeys(rows) && LinksResolve(rows)
    requires StoreAccepted(rows, req) && !IsBlankValue(Get(req, "hof_its_id"))
    ensures UniqueKeys(rows + [NewMember(req)]) && LinksResolve(rows + [NewMember(req)])
  {
    var m := NewMember(req);
    var r := rows + [m];
    assert Keys(r) == Keys(rows) + {m.itsId};
    forall i | 0 <= i < |rows| ensures rows[i].itsId != m.itsId {
      assert rows[i] in rows;
    }
    forall x | x in r && x.hofItsId.Some? ensures x.hofItsId.value in Keys(r) {
      if x != m {
        assert x in rows;
      }
    }
  }

  /** An accepted `update` that keeps the key and whose `hof_its_id` is not a blank string keeps
      the primary key and the self foreign key. */
  lemma UpdateKeepsKeys(rows: seq<Member>, id: string, req: Req, m': Member)
    requires UniqueKeys(rows) && LinksResolve(rows) && id in Keys(rows)
    requires UpdateAccepted(rows, id, req) && !IsBlankValue(Get(req, "hof_its_id"))
    requires ApplyUpdate(Find(rows, id).value, req) == Some(m') && m'.itsId == id
    ensures UniqueKeys(ReplaceRow(rows, id, m')) && LinksResolve(ReplaceRow(rows, id, m'))
    ensures Keys(ReplaceRow(rows, id, m')) == Keys(rows)
  {
    UpdatedLinkResolves(rows, id, req, m');
    ReplaceKeepsKeys(rows, id, m');
  }

  /** The head link of an updated row names a stored member. */
  lemma UpdatedLinkResolves(rows: seq<Member>, id: string, req: Req, m': Member)
    requires LinksResolve(rows) && id in Keys(rows)
    requires UpdateAccepted(rows, id, req) && !IsBlankValue(Get(req, "hof_its_id"))
    requires ApplyUpdate(Find(rows, id).value, req) == Some(m')
    ensures m'.hofItsId.Some? ==> m'.hofItsId.value in Keys(rows)
  {
    var prev := Find(rows, id).value;
    if "hof_its_id" !in req {
      assert prev in rows;
    }
  }

  /** Writing back, under its own key, a row whose head link resolves keeps both keys. */
  lemma ReplaceKeepsKeys(rows: seq<Member>, id: string, m': Member)
    requires UniqueKeys(rows) && LinksResolve(rows) && id in Keys(rows) && m'.itsId == id
    requires m'.hofItsId.Some? ==> m'.hofItsId.value in Keys(rows)
    ensures UniqueKeys(ReplaceRow(rows, id, m')) && LinksResolve(ReplaceRow(rows, id, m'))
    ensures Keys(ReplaceRow(rows, id, m')) == Keys(rows)
  {
    var r := ReplaceRow(rows, id, m');
    assert Keys(r) == Keys(rows) by {
      forall k | k in Keys(rows) ensures k in Keys(r) {
        var x :| x in rows && x.itsId == k;
        var i :| 0 <= i < |rows| && rows[i] == x;
        assert r[i].itsId == k;
      }
    }
    forall x | x in r && x.hofItsId.Some? ensures x.hofItsId.value in Keys(r) {
      var i :| 0 <= i < |r| && r[i] == x;
      if rows[i].itsId != id {
        assert rows[i] in rows;
      }
    }
  }

  /** The effect of the delete on a row that is not the deleted one. */
  function Unlinked(m: Member, k: string): Member
  {
    if m.hofItsId == Some(k) then m.(hofItsId := None) else m
  }

  /** Deleting deletes no dependent and changes no field except the links to the deleted row. */
  lemma {:induction false} DeleteRowKeepsOthers(rows: seq<Member>, k: string, m: Member)
    requires m in rows && m.itsId != k
    ensures Unlinked(m, k) in DeleteRow(rows, k)
  {
    if rows[0] != m {
      DeleteRowKeepsOthers(rows[1..], k, m);
    }
  }

  lemma UniqueHead(rows: seq<Member>)
    requires rows != [] && UniqueKeys(rows)
    ensures rows[0].itsId !in Keys(rows[1..]) && UniqueKeys(rows[1..])
  {
  }

  lemma UniqueCons(m: Member, rest: seq<Member>)
    requires m.itsId !in Keys(rest) && UniqueKeys(rest)
    ensures UniqueKeys([m] + rest)
  {
    forall j | 0 <= j < |rest| ensures rest[j].itsId != m.itsId {
      assert rest[j] in rest;
    }
  }

  /** Deleting keeps the primary key. */
  lemma {:induction false} DeleteRowUnique(rows: seq<Member>, k: string)
    requires UniqueKeys(rows)
    ensures UniqueKeys(DeleteRow(rows, k))
  {
    if rows != [] {
      UniqueHead(rows);
      DeleteRowUnique(rows[1..], k);
      if rows[0].itsId != k {
        UniqueCons(Unlinked(rows[0], k), DeleteRow(rows[1..], k));
      }
    }
  }

  /** Every row left is a surviving row with at most its link cleared. */
  lemma {:induction false} DeleteRowOrigin(rows: seq<Member>, k: string, m: Member)
    requires m in DeleteRow(rows, k)
    ensures exists o :: o in rows && o.itsId != k && m == Unlinked(o, k)
  {
    var rest := DeleteRow(rows[1..], k);
    if m in rest {
      DeleteRowOrigin(rows[1..], k, m);
      var o :| o in rows[1..] && o.itsId != k && m == Unlinked(o, k);
      assert o in rows;
    } else {
      assert rows[0].itsId != k && m == Unlinked(rows[0], k);
    }
  }

  /** Deleting keeps the self foreign key: the links that named the deleted row are null now. */
  lemma DeleteRowLinks(rows: seq<Member>, k: string)
    requires LinksResolve(rows)
    ensures LinksResolve(DeleteRow(rows, k))
  {
    var r := DeleteRow(rows, k);
    forall m | m in r && m.hofItsId.Some? ensures m.hofItsId.value in Keys(r) {
      DeleteRowOrigin(rows, k, m);
      var o :| o in rows && o.itsId != k && m == Unlinked(o, k);
      assert o.hofItsId == m.hofItsId;
    }
  }

  // ---------------------------------------------------------------- controller queries

  /** `show`. */
  function Show(rows: seq<Member>, id: string): (r: Response<Member>)
    ensures r.NotFound? <==> id !in Keys(rows)
    ensures r.Ok? || r.NotFound?
    ensures r.Ok? ==> r.value in rows && r.value.itsId == id
  {
    match Find(rows, id)
    case None => NotFound
    case Some(m) => Ok(m)
  }

  /** `getHofs`: the members whose link is null or points at themselves, in storage order. */
  function Hofs(rows: seq<Member>): (r: seq<Member>)
    ensures forall m :: m in r <==> m in rows && (m.hofItsId == None || m.hofItsId == Some(m.itsId))
    ensures IsSubsequence(r, rows)
  {
    Filter(rows, IsHof)
  }

  /** `getFamilyByHofIts`: the rows linked to `h` in storage order, then the row `h` itself unless
      a row with that `its_id` is already among them. `h` need not be a head of family. */
  function FamilyByHof(rows: seq<Member>, h: string): (r: Response<seq<Member>>)
    ensures r.NotFound? <==> h !in Keys(rows)
    ensures r.Ok? || r.NotFound?
    ensures r.Ok? ==> forall m :: m in r.value ==> m in rows && (IsDependentOf(m, h) || Some(m) == Find(rows, h))
    ensures r.Ok? ==> forall m :: m in rows && IsDependentOf(m, h) ==> m in r.value
    ensures r.Ok? ==> exists m :: m in r.value && m.itsId == h
    ensures r.Ok? ==> IsSubsequence(Dependents(rows, h), r.value)
  {
    match Find(rows, h)
    case None => NotFound
    case Some(hof) =>
      var deps := Dependents(rows, h);
      if exists m :: m in deps && m.itsId == h then
        SubsequenceRefl(deps);
        Ok(deps)
      else
        SubsequencePrefix(deps, [hof]);
        assert hof in deps + [hof];
        Ok(deps + [hof])
  }

  /** Under the primary key the family is exactly the head `h` and the members linked to `h`,
      and it holds each of them exactly once. */
  lemma FamilyOnce(rows: seq<Member>, h: string, m: Member)
    requires UniqueKeys(rows)
    requires FamilyByHof(rows, h).Ok?
    ensures m in FamilyByHof(rows, h).value <==> m in rows && (IsDependentOf(m, h) || m.itsId == h)
    ensures m in FamilyByHof(rows, h).value ==> Count(FamilyByHof(rows, h).value, m) == 1
  {
    var hof := Find(rows, h).value;
    var deps := Dependents(rows, h);
    var fam := FamilyByHof(rows, h).value;
    if m in rows && m.itsId == h {
      FindUnique(rows, m);
      var w :| w in fam && w.itsId == h;
      FindUnique(rows, w);
    }
    UniqueSubsequenceOnce(deps, rows, m);
    if fam != deps {
      CountAppend(deps, [hof], m);
      CountZero(deps, hof);
      if m != hof {
        assert Count([hof], m) == 0;
      } else {
        assert Count([hof], m) == 1;
      }
    }
  }

  /** In a subsequence of a table with a primary key, a row occurs at most once. */
  lemma {:induction false} UniqueSubsequenceOnce(s: seq<Member>, rows: seq<Member>, m: Member)
    requires UniqueKeys(rows) && IsSubsequence(s, rows)
    ensures Count(s, m) <= 1
    ensures m in s ==> Count(s, m) == 1
    decreases |rows|
  {
    if s != [] {
      UniqueHead(rows);
      if s[0] == rows[0] {
        UniqueSubsequenceOnce(s[1..], rows[1..], m);
        if m == s[0] {
          SubsequenceKeys(s[1..], rows[1..]);
          assert m.itsId !in Keys(s[1..]);
          CountZero(s[1..], m);
        }
      } else {
        UniqueSubsequenceOnce(s, rows[1..], m);
      }
    }
  }

  lemma {:induction false} SubsequenceKeys(s: seq<Member>, rows: seq<Member>)
    requires IsSubsequence(s, rows)
    ensures Keys(s) <= Keys(rows)
    decreases |rows|
  {
    if s != [] {
      if s[0] == rows[0] {
        SubsequenceKeys(s[1..], rows[1..]);
        assert Keys(s) == {s[0].itsId} + Keys(s[1..]);
        assert Keys(rows) == {rows[0].itsId} + Keys(rows[1..]);
      } else {
        SubsequenceKeys(s, rows[1..]);
        assert Keys(rows) == {rows[0].itsId} + Keys(rows[1..]);
      }
    }
  }

  /** What `getHofByIts` answers with. */
  datatype HofInfo = HofInfo(hofItsId: string, hofDetails: Member, isHof: bool)

  /** `getHofByIts`: the head of family's id is the member's link, or its own id when the link is
      null; `is_hof` says whether the member is its own head. */
  function HofByIts(rows: seq<Member>, itsId: string): (r: Response<HofInfo>)
    ensures itsId !in Keys(rows) ==> r.NotFound?
    ensures r.Ok? || r.NotFound?
    ensures r.Ok? ==> var m := Find(rows, itsId).value;
      && r.value.hofItsId == (if m.hofItsId.Some? then m.hofItsId.value else itsId)
      && r.value.hofDetails in rows && r.value.hofDetails.itsId == r.value.hofItsId
      && (r.value.isHof <==> (m.hofItsId == None || m.hofItsId == Some(m.itsId)))
  {
    match Find(rows, itsId)
    case None => NotFound
    case Some(m) =>
      var hofItsId := if m.hofItsId.Some? then m.hofItsId.value else m.itsId;
      match Find(rows, hofItsId)
      case None => NotFound
      case Some(hof) => Ok(HofInfo(hofItsId, hof, m.itsId == hofItsId || m.hofItsId == None))
  }

  /** Under the self foreign key the second "not found" of `getHofByIts` cannot happen: the
      answer is "not found" exactly when the member is absent. */
  lemma HofByItsTotal(rows: seq<Member>, itsId: string)
    requires LinksResolve(rows)
    ensures HofByIts(rows, itsId).NotFound? <==> itsId !in Keys(rows)
  {
    if itsId in Keys(rows) {
      var m := Find(rows, itsId).value;
      assert m in rows;
    }
  }

  /** PHP truthiness of a query parameter: absent, empty and "0" are false. */
  predicate PhpTruthy(q: Option<string>)
  {
    q.Some? && q.value != "" && q.value != "0"
  }

  /** The three-field match of `search` and of `index`: `full_name`, `its_id` or `eits_id`
      contains the query, letters compared without case; a null `eits_id` matches nothing. */
  predicate Matches(m: Member, q: string)
  {
    || ContainsFolded(m.fullName, q)
    || ContainsFolded(m.itsId, q)
    || (m.eitsId.Some? && ContainsFolded(m.eitsId.value, q))
  }

  /** `search`. */
  function Search(rows: seq<Member>, q: Option<string>): (r: Response<seq<Member>>)
    ensures r.BadRequest? <==> !PhpTruthy(q)
    ensures r.Ok? || r.BadRequest?
    ensures r.Ok? ==> (forall m :: m in r.value <==> m in rows && Matches(m, q.value)) && IsSubsequence(r.value, rows)
  {
    if !PhpTruthy(q) then BadRequest
    else Ok(Filter(rows, (m: Member) => Matches(m, q.value)))
  }

  /** The rows `index` pages through. */
  function IndexRows(rows: seq<Member>, search: Option<string>): (r: seq<Member>)
    ensures !PhpTruthy(search) ==> r == rows
    ensures PhpTruthy(search) ==> forall m :: m in r <==> m in rows && Matches(m, search.value)
    ensures IsSubsequence(r, rows)
  {
    if PhpTruthy(search) then Filter(rows, (m: Member) => Matches(m, search.value))
    else SubsequenceRefl(rows); rows
  }

  /** One page of a listing and its `meta` block. */
  datatype Page<T> = Page(items: seq<T>, currentPage: nat, lastPage: nat, perPage: int, total: nat)

  /** The paginator's page of `rows`: a `per_page` of 0 falls back to the model default of 15, a
      missing or non-positive page number to page 1. A negative `per_page` sets no limit (the
      query builder ignores a negative limit and raises a negative offset to 0), so the page
      holds every row and the last page is 1. */
  function Paginate<T>(rows: seq<T>, page: Option<int>, perPage: int): (r: Page<T>)
    ensures r.currentPage >= 1 && r.lastPage >= 1 && r.total == |rows|
    ensures r.perPage == (if perPage == 0 then 15 else perPage)
    ensures r.currentPage == (if page.Some? && page.value >= 1 then page.value else 1)
    ensures perPage < 0 ==> r.items == rows && r.lastPage == 1
    ensures r.perPage >= 1 ==> r.items == PageSlice(rows, Offset(r.currentPage, r.perPage), r.perPage)
    ensures r.perPage >= 1 ==> |rows| <= r.lastPage * r.perPage
    ensures r.perPage >= 1 ==> r.lastPage == 1 || (r.lastPage - 1) * r.perPage < |rows|
  {
    var current: nat := if page.Some? && page.value >= 1 then page.value else 1;
    if perPage < 0 then
      Page(rows, current, 1, perPage, |rows|)
    else
      var per := if perPage == 0 then 15 else perPage;
      Page(PageSlice(rows, Offset(current, per), per), current, LastPage(|rows|, per), per, |rows|)
  }

  /** The number of rows before page `page`. */
  function Offset(page: nat, per: nat): (o: nat)
    requires page >= 1
    ensures o == (page - 1) * per
  {
    (page - 1) * per
  }

  /** The `per` rows from offset `lo`, cut off at the end of the table. */
  function PageSlice<T>(rows: seq<T>, lo: nat, per: nat): (r: seq<T>)
    ensures |r| <= per
    ensures forall i :: 0 <= i < |r| ==> lo + i < |rows| && r[i] == rows[lo + i]
    ensures lo + per <= |rows| ==> |r| == per
  {
    if lo >= |rows| then [] else rows[lo..Min(lo + per, |rows|)]
  }

  /** The number of pages, never less than one. */
  function LastPage(n: nat, per: nat): (last: nat)
    requires per >= 1
    ensures last >= 1 && n <= last * per
    ensures last == 1 || (last - 1) * per < n
  {
    if n == 0 then 1
    else
      var q := (n + per - 1) / per;
      var rem := (n + per - 1) % per;
      assert n + per - 1 == q * per + rem;
      assert (q - 1) * per == q * per - per;
      q
  }

  function Min(a: int, b: int): int
  {
    if a <= b then a else b
  }

  /** `index`: the filtered rows, ten to a page unless `per_page` says otherwise. */
  function Index(rows: seq<Member>, search: Option<string>, page: Option<int>, perPage: Option<int>): (r: Page<Member>)
    ensures r.total == |IndexRows(rows, search)|
    ensures r.perPage == (if perPage.None? then 10 else if perPage.value == 0 then 15 else perPage.value)
    ensures forall m :: m in r.items ==> m in rows && (PhpTruthy(search) ==> Matches(m, search.value))
    ensures r == Paginate(IndexRows(rows, search), page, if perPage.None? then 10 else perPage.value)
  {
    Paginate(IndexRows(rows, search), page, if perPage.None? then 10 else perPage.value)
  }
}
