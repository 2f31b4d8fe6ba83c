/** Client-side permissions: the fixed role table, the role a user gets from the ITS id kept in
    the browser, the union of the permissions of the assigned roles, and the checks pages use to
    show or hide controls. */
module ClientPermissions {
  import opened Common
  import opened Text

  datatype Permission =
    | ViewCensus | EditCensus
    | ViewMiqaat | EditMiqaat
    | ViewAccommodation | EditAccommodation
    | ViewScan | EditScan
    | AdminAll

  predicate IsEdit(p: Permission)
  {
    p == EditCensus || p == EditMiqaat || p == EditAccommodation || p == EditScan
  }

  datatype UserRole = UserRole(id: string, name: string, permissions: seq<Permission>)

  datatype UserPermissions = UserPermissions(itsId: string, roles: seq<string>, permissions: seq<Permission>, isAdmin: bool)

  /** The `ROLES` record. */
  const Roles: map<string, UserRole> := map[
    "admin" := UserRole("admin", "Administrator", [AdminAll]),
    "manager" := UserRole("manager", "Miqaat Manager",
      [ViewCensus, EditCensus, ViewMiqaat, EditMiqaat, ViewAccommodation, EditAccommodation, ViewScan, EditScan]),
    "volunteer" := UserRole("volunteer", "Volunteer",
      [ViewCensus, ViewMiqaat, ViewAccommodation, EditAccommodation, ViewScan]),
    "user" := UserRole("user", "Regular User", [ViewMiqaat, ViewAccommodation])
  ]

  /** Each role is filed under its own id; only the administrator lists `admin:all`, and lists
      nothing else. */
  lemma RolesTable()
    ensures Roles.Keys == {"admin", "manager", "volunteer", "user"}
    ensures forall k :: k in Roles ==> Roles[k].id == k
    ensures Roles["admin"].permissions == [AdminAll]
    ensures forall k :: k in Roles && k != "admin" ==> AdminAll !in Roles[k].permissions
  {
  }

  /** The roles nest: `user` within `volunteer` within `manager`; `user` may edit nothing. */
  lemma RolesNest()
    ensures forall p :: p in Roles["user"].permissions ==> p in Roles["volunteer"].permissions
    ensures forall p :: p in Roles["volunteer"].permissions ==> p in Roles["manager"].permissions
    ensures forall p :: p in Roles["user"].permissions ==> !IsEdit(p)
  {
  }

  // ---------------------------------------------------------------- getUserPermissions

  /** The demo role assignment: `ADMIN123` first, then the `MGR` and `VOL` prefixes, else
      `user`. */
  function RoleFor(itsId: string): (r: string)
    ensures r in Roles
  {
    if itsId == "ADMIN123" then "admin"
    else if StartsWith(itsId, "MGR") then "manager"
    else if StartsWith(itsId, "VOL") then "volunteer"
    else "user"
  }

  /** Which id gets which role, each case in terms of the id alone. */
  lemma RoleForCases(itsId: string)
    ensures RoleFor(itsId) == "admin" <==> itsId == "ADMIN123"
    ensures RoleFor(itsId) == "manager" <==> itsId != "ADMIN123" && StartsWith(itsId, "MGR")
    ensures RoleFor(itsId) == "volunteer" <==>
      itsId != "ADMIN123" && !StartsWith(itsId, "MGR") && StartsWith(itsId, "VOL")
    ensures RoleFor(itsId) == "user" <==>
      itsId != "ADMIN123" && !StartsWith(itsId, "MGR") && !StartsWith(itsId, "VOL")
  {
  }

  /** The permissions of a role id, none for an id the table lacks. */
  function RolePermissions(roleId: string): seq<Permission>
  {
    if roleId in Roles then Roles[roleId].permissions else []
  }

  /** `Set.add`: an element already present is not added again. */
  function Insert(acc: seq<Permission>, p: Permission): seq<Permission>
  {
    if p in acc then acc else acc + [p]
  }

  /** Adding the elements of `ps` one after the other, in order. */
  function AddAll(acc: seq<Permission>, ps: seq<Permission>): seq<Permission>
  {
    if ps == [] then acc else Insert(AddAll(acc, ps[..|ps| - 1]), ps[|ps| - 1])
  }

  /** The set filled by the nested `forEach` loops, in insertion order (`Array.from`). */
  function Union(roles: seq<string>): seq<Permission>
  {
    if roles == [] then [] else AddAll(Union(roles[..|roles| - 1]), RolePermissions(roles[|roles| - 1]))
  }

  lemma {:induction false} AddAllMeans(acc: seq<Permission>, ps: seq<Permission>)
    requires NoDuplicates(acc)
    ensures NoDuplicates(AddAll(acc, ps))
    ensures forall p :: p in AddAll(acc, ps) <==> p in acc || p in ps
  {
    if ps != [] {
      var init := ps[..|ps| - 1];
      AddAllMeans(acc, init);
      assert ps == init + [ps[|ps| - 1]];
      var prev := AddAll(acc, init);
      var last := ps[|ps| - 1];
      if last !in prev {
        assert Insert(prev, last) == prev + [last];
        forall i, j | 0 <= i < j < |prev + [last]|
          ensures (prev + [last])[i] != (prev + [last])[j]
        {
          if j == |prev| {
            assert (prev + [last])[i] == prev[i];
          }
        }
      }
    }
  }

  /** The union holds each permission of an assigned role exactly once, and nothing else. */
  lemma {:induction false} UnionMeans(roles: seq<string>)
    ensures NoDuplicates(Union(roles))
    ensures forall p :: p in Union(roles) <==> exists r :: r in roles && p in RolePermissions(r)
  {
    if roles != [] {
      var init := roles[..|roles| - 1];
      var last := roles[|roles| - 1];
      UnionMeans(init);
      AddAllMeans(Union(init), RolePermissions(last));
      assert roles == init + [last];
      forall p
        ensures p in Union(roles) <==> exists r :: r in roles && p in RolePermissions(r)
      {
        if p in RolePermissions(last) {
          assert last in roles;
        }
        if p in Union(init) {
          var r :| r in init && p in RolePermissions(r);
          assert r in roles;
        }
        if exists r :: r in roles && p in RolePermissions(r) {
          var r :| r in roles && p in RolePermissions(r);
          assert r in init || r == last;
        }
      }
    }
  }

  /** What `getUserPermissions` returns for a stored ITS id. */
  function Computed(itsId: string): UserPermissions
  {
    var roles := [RoleFor(itsId)];
    var permissions := Union(roles);
    UserPermissions(itsId, roles, permissions, "admin" in roles || AdminAll in permissions)
  }

  /** Exactly one role; the permissions are those of that role, without repetition; the user
      is an administrator exactly for the id `ADMIN123`. */
  lemma ComputedMeans(itsId: string)
    ensures |Computed(itsId).roles| == 1 && Computed(itsId).roles[0] == RoleFor(itsId)
    ensures NoDuplicates(Computed(itsId).permissions)
    ensures forall p :: p in Computed(itsId).permissions <==> p in Roles[RoleFor(itsId)].permissions
    ensures Computed(itsId).isAdmin <==> itsId == "ADMIN123"
  {
    var roles := [RoleFor(itsId)];
    UnionMeans(roles);
    RolesTable();
    RoleForCases(itsId);
    forall p
      ensures p in Union(roles) <==> p in Roles[RoleFor(itsId)].permissions
    {
      if p in Union(roles) {
        var r :| r in roles && p in RolePermissions(r);
      }
    }
  }

  /** `getUserPermissions`: nothing outside a browser or without a stored id (JavaScript treats
      the empty string as missing); otherwise the single assigned role and the union computed
      by the two nested loops. The stored id is a parameter standing for `localStorage`. */
  method GetUserPermissions(isBrowser: bool, stored: Option<string>) returns (r: Option<UserPermissions>)
    ensures r.None? <==> !isBrowser || stored.None? || stored.value == ""
    ensures r.Some? ==> r.value == Computed(stored.value)
  {
    if !isBrowser {
      return None;
    }
    if stored.None? || stored.value == "" {
      return None;
    }
    var itsId := stored.value;
    var roles := ["user"];
    if itsId == "ADMIN123" {
      roles := ["admin"];
    } else if StartsWith(itsId, "MGR") {
      roles := ["manager"];
    } else if StartsWith(itsId, "VOL") {
      roles := ["volunteer"];
    }
    var all: seq<Permission> := [];
    var i := 0;
    while i < |roles|
      invariant 0 <= i <= |roles|
      invariant all == Union(roles[..i])
    {
      assert roles[..i + 1][..i] == roles[..i];
      var ps := RolePermissions(roles[i]);
      var j := 0;
      ghost var before := all;
      while j < |ps|
        invariant 0 <= j <= |ps|
        invariant all == AddAll(before, ps[..j])
      {
        assert ps[..j + 1][..j] == ps[..j];
        if ps[j] !in all {
          all := all + [ps[j]];
        }
        j := j + 1;
      }
      assert ps[..j] == ps;
      i := i + 1;
    }
    assert roles[..i] == roles;
    r := Some(UserPermissions(itsId, roles, all, "admin" in roles || AdminAll in all));
  }

  // ---------------------------------------------------------------- hasPermission, withPermission

  /** `hasPermission`, given what `getUserPermissions` returned: never without a user, always
      for an administrator, otherwise when the user's list holds the permission. */
  function HasPermission(u: Option<UserPermissions>, p: Permission): (b: bool)
    ensures u.None? ==> !b
    ensures u.Some? && (u.value.isAdmin || AdminAll in u.value.permissions || p in u.value.permissions) ==> b
    ensures b ==> u.Some?
  {
    u.Some? && (u.value.isAdmin || AdminAll in u.value.permissions || p in u.value.permissions)
  }

  /** For a stored id: the administrator passes every check, anyone else exactly the checks for
      the permissions of their role. */
  lemma HasPermissionFor(itsId: string, p: Permission)
    ensures HasPermission(Some(Computed(itsId)), p) <==> itsId == "ADMIN123" || p in Roles[RoleFor(itsId)].permissions
  {
    ComputedMeans(itsId);
    RolesTable();
  }

  /** `withPermission`: some of the listed permissions passes `hasPermission`. */
  function WithPermission(u: Option<UserPermissions>, ps: seq<Permission>): (b: bool)
    ensures b <==> exists p :: p in ps && HasPermission(u, p)
    ensures ps == [] ==> !b
  {
    if ps == [] then false
    else HasPermission(u, ps[0]) || WithPermission(u, ps[1..])
  }
}
