/** Server-side roles and permissions: the permission check of a role and the seeder that fills
    the permission, role and role-permission tables. */
module Roles {
  import opened Common

  /** A row of the permission table. */
  datatype Permission = Permission(id: nat, name: string, slug: string)

  /** A row of the role table. */
  datatype Role = Role(id: nat, name: string, slug: string, description: string)

  // ---------------------------------------------------------------- Role::hasPermission

  /** `hasPermission` with a slug: some attached permission carries that slug. */
  function HasPermissionSlug(attached: seq<Permission>, slug: string): (b: bool)
    ensures b <==> exists p :: p in attached && p.slug == slug
  {
    |Filter(attached, (p: Permission) => p.slug == slug)| > 0
  }

  /** `hasPermission` with a collection: the collection and the attached permissions share a
      permission, models being compared by key. */
  function HasPermissionIn(attached: seq<Permission>, query: seq<Permission>): (b: bool)
    ensures b <==> exists q, p :: q in query && p in attached && q.id == p.id
  {
    |Filter(query, (q: Permission) => exists p :: p in attached && p.id == q.id)| > 0
  }

  /** A role with no permission attached has none of them. */
  lemma NoPermissionsNoAnswer(slug: string, query: seq<Permission>)
    ensures !HasPermissionSlug([], slug) && !HasPermissionIn([], query)
  {
  }

  /** Attaching more permissions never takes a permission away. */
  lemma HasPermissionMonotone(attached: seq<Permission>, more: seq<Permission>, slug: string, query: seq<Permission>)
    requires forall p :: p in attached ==> p in more
    ensures HasPermissionSlug(attached, slug) ==> HasPermissionSlug(more, slug)
    ensures HasPermissionIn(attached, query) ==> HasPermissionIn(more, query)
  {
  }

  // ---------------------------------------------------------------- the seed data

  /** A permission the seeder creates: its name and slug. */
  datatype PermissionData = PermissionData(name: string, slug: string)

  /** A role the seeder creates, with the slugs of the permissions to attach. */
  datatype RoleData = RoleData(name: string, slug: string, description: string, permissions: seq<string>)

  const SeedPermissions: seq<PermissionData> := [
    PermissionData("View Census", "view-census"),
    PermissionData("Create Census", "create-census"),
    PermissionData("Edit Census", "edit-census"),
    PermissionData("Delete Census", "delete-census"),
    PermissionData("View Accommodation", "view-accommodation"),
    PermissionData("Create Accommodation", "create-accommodation"),
    PermissionData("Edit Accommodation", "edit-accommodation"),
    PermissionData("Delete Accommodation", "delete-accommodation"),
    PermissionData("View Miqaat", "view-miqaat"),
    PermissionData("Create Miqaat", "create-miqaat"),
    PermissionData("Edit Miqaat", "edit-miqaat"),
    PermissionData("Delete Miqaat", "delete-miqaat"),
    PermissionData("Manage System", "manage-system")
  ]

  const SeedRoles: seq<RoleData> := [
    RoleData("Administrator", "admin", "Full system access",
      ["view-census", "create-census", "edit-census", "delete-census",
       "view-accommodation", "create-accommodation", "edit-accommodation", "delete-accommodation",
       "view-miqaat", "create-miqaat", "edit-miqaat", "delete-miqaat",
       "manage-system"]),
    RoleData("Accommodation Manager", "accommodation-manager", "Can manage accommodations",
      ["view-census", "view-accommodation", "create-accommodation", "edit-accommodation", "view-miqaat"]),
    RoleData("Census Manager", "census-manager", "Can manage census data",
      ["view-census", "create-census", "edit-census", "view-accommodation", "view-miqaat"]),
    RoleData("User", "user", "Basic user access",
      ["view-census", "view-accommodation", "view-miqaat"])
  ]

  /** The slugs of the seeded permissions, in creation order. */
  function SeedSlugs(): (r: seq<string>)
    ensures |r| == |SeedPermissions|
    ensures forall i :: 0 <= i < |r| ==> r[i] == SeedPermissions[i].slug
  {
    seq(|SeedPermissions|, i requires 0 <= i < |SeedPermissions| => SeedPermissions[i].slug)
  }

  /** Thirteen permissions with pairwise distinct slugs. */
  lemma SeedSlugsDistinct()
    ensures |SeedPermissions| == 13
    ensures forall i, j :: 0 <= i < j < |SeedPermissions| ==> SeedPermissions[i].slug != SeedPermissions[j].slug
  {
  }

  /** The administrator's list names every permission, in the order of creation. */
  lemma AdminListsAll()
    ensures SeedRoles[0].slug == "admin"
    ensures SeedRoles[0].permissions == SeedSlugs()
  {
  }

  /** Every slug a role lists names a seeded permission. */
  lemma RoleSlugsSeeded()
    ensures forall k, s :: 0 <= k < |SeedRoles| && s in SeedRoles[k].permissions ==> s in SeedSlugs()
  {
    AdminListsAll();
    var all := SeedRoles[0].permissions;
    forall k, s | 0 <= k < |SeedRoles| && s in SeedRoles[k].permissions
      ensures s in SeedSlugs()
    {
      var i :| 0 <= i < |SeedRoles[k].permissions| && SeedRoles[k].permissions[i] == s;
      if k == 1 {
        assert [all[0], all[4], all[5], all[6], all[8]] == SeedRoles[k].permissions;
      } else if k == 2 {
        assert [all[0], all[1], all[2], all[4], all[8]] == SeedRoles[k].permissions;
      } else if k == 3 {
        assert [all[0], all[4], all[8]] == SeedRoles[k].permissions;
      }
    }
  }

  /** `user` lists nothing the other roles lack; every role lists the three view permissions; no
      role but the administrator lists a delete permission or system management. */
  lemma RoleListsNest()
    ensures SeedRoles[3].slug == "user"
    ensures forall k, s :: 0 <= k < |SeedRoles| && s in SeedRoles[3].permissions ==> s in SeedRoles[k].permissions
    ensures forall k :: 0 <= k < |SeedRoles| ==>
      && "view-census" in SeedRoles[k].permissions
      && "view-accommodation" in SeedRoles[k].permissions
      && "view-miqaat" in SeedRoles[k].permissions
    ensures forall k :: 1 <= k < |SeedRoles| ==>
      && "delete-census" !in SeedRoles[k].permissions
      && "delete-accommodation" !in SeedRoles[k].permissions
      && "delete-miqaat" !in SeedRoles[k].permissions
      && "manage-system" !in SeedRoles[k].permissions
  {
    UserListedEverywhere();
    ViewsListedEverywhere();
    OnlyAdminDeletes();
  }

  lemma UserListedEverywhere()
    ensures SeedRoles[3].slug == "user"
    ensures forall k, s :: 0 <= k < |SeedRoles| && s in SeedRoles[3].permissions ==> s in SeedRoles[k].permissions
  {
  }

  lemma ViewsListedEverywhere()
    ensures forall k :: 0 <= k < |SeedRoles| ==>
      && "view-census" in SeedRoles[k].permissions
      && "view-accommodation" in SeedRoles[k].permissions
      && "view-miqaat" in SeedRoles[k].permissions
  {
  }

  lemma OnlyAdminDeletes()
    ensures forall k :: 1 <= k < |SeedRoles| ==>
      && "delete-census" !in SeedRoles[k].permissions
      && "delete-accommodation" !in SeedRoles[k].permissions
      && "delete-miqaat" !in SeedRoles[k].permissions
      && "manage-system" !in SeedRoles[k].permissions
  {
  }

  // ---------------------------------------------------------------- what the seeder writes

  /** The rows `Permission::create` adds for `data`, ids handed out from `next`. */
  function CreatedPermissions(data: seq<PermissionData>, next: nat): (r: seq<Permission>)
    ensures |r| == |data|
    ensures forall i :: 0 <= i < |r| ==> r[i].id == next + i && r[i].slug == data[i].slug && r[i].name == data[i].name
  {
    seq(|data|, i requires 0 <= i < |data| => Permission(next + i, data[i].name, data[i].slug))
  }

  /** The role row: the name, slug and description only, the permission list being removed
      before the row is created. */
  function RoleRow(d: RoleData, id: nat): (r: Role)
    ensures r.id == id && r.name == d.name && r.slug == d.slug && r.description == d.description
  {
    Role(id, d.name, d.slug, d.description)
  }

  function RoleRows(data: seq<RoleData>, next: nat): (r: seq<Role>)
    ensures |r| == |data|
    ensures forall i :: 0 <= i < |r| ==> r[i] == RoleRow(data[i], next + i)
  {
    seq(|data|, i requires 0 <= i < |data| => RoleRow(data[i], next + i))
  }

  /** `Permission::where('slug', $slug)->first()`. */
  function FirstBySlug(perms: seq<Permission>, slug: string): (r: Option<Permission>)
    ensures r.Some? <==> exists p :: p in perms && p.slug == slug
    ensures r.Some? ==> r.value in perms && r.value.slug == slug
  {
    if perms == [] then None
    else if perms[0].slug == slug then Some(perms[0])
    else FirstBySlug(perms[1..], slug)
  }

  /** The `(role, permission)` pairs attached for one role: one per listed slug that names a
      permission, in list order; a slug naming none is skipped. */
  function Attach(perms: seq<Permission>, roleId: nat, slugs: seq<string>): (r: seq<(nat, nat)>)
    ensures |r| <= |slugs|
  {
    if slugs == [] then []
    else
      var rest := Attach(perms, roleId, slugs[..|slugs| - 1]);
      match FirstBySlug(perms, slugs[|slugs| - 1])
      case None => rest
      case Some(p) => rest + [(roleId, p.id)]
  }

  /** The pairs attached for the roles of `data`, ids handed out from `next`. */
  function AttachAll(perms: seq<Permission>, data: seq<RoleData>, next: nat): seq<(nat, nat)>
  {
    if data == [] then []
    else AttachAll(perms, data[..|data| - 1], next) + Attach(perms, next + |data| - 1, data[|data| - 1].permissions)
  }

  /** One role's attachments are exactly the permissions its listed slugs find, and nothing is
      attached for a slug that finds none. */
  lemma {:induction false} AttachMembers(perms: seq<Permission>, roleId: nat, slugs: seq<string>, pair: (nat, nat))
    ensures pair in Attach(perms, roleId, slugs) <==>
      pair.0 == roleId && exists s :: s in slugs && FirstBySlug(perms, s).Some? && FirstBySlug(perms, s).value.id == pair.1
  {
    if slugs != [] {
      var init := slugs[..|slugs| - 1];
      var last := slugs[|slugs| - 1];
      AttachMembers(perms, roleId, init, pair);
      assert slugs == init + [last];
      assert forall s :: s in slugs <==> s in init || s == last;
      var rest := Attach(perms, roleId, init);
      match FirstBySlug(perms, last)
      case None =>
        assert Attach(perms, roleId, slugs) == rest;
      case Some(p) =>
        assert Attach(perms, roleId, slugs) == rest + [(roleId, p.id)];
        assert pair in rest + [(roleId, p.id)] <==> pair in rest || pair == (roleId, p.id);
        assert last in slugs;
        if pair.0 == roleId && pair.1 == p.id {
          assert pair == (roleId, p.id);
        }
    }
  }

  /** A slug that finds no permission adds nothing. */
  lemma MissingSlugSkipped(perms: seq<Permission>, roleId: nat, slugs: seq<string>, s: string)
    requires forall p :: p in perms ==> p.slug != s
    ensures Attach(perms, roleId, slugs + [s]) == Attach(perms, roleId, slugs)
  {
    assert (slugs + [s])[..|slugs + [s]| - 1] == slugs;
  }

  /** The pairs of all roles are the pairs of each role under its own id. */
  lemma {:induction false} AttachAllMembers(perms: seq<Permission>, data: seq<RoleData>, next: nat, pair: (nat, nat))
    ensures pair in AttachAll(perms, data, next) <==>
      next <= pair.0 < next + |data| && pair in Attach(perms, pair.0, data[pair.0 - next].permissions)
  {
    if data != [] {
      var init := data[..|data| - 1];
      var last := next + |init|;
      var own := Attach(perms, last, data[|init|].permissions);
      AttachAllMembers(perms, init, next, pair);
      assert AttachAll(perms, data, next) == AttachAll(perms, init, next) + own;
      assert pair in AttachAll(perms, data, next) <==> pair in AttachAll(perms, init, next) || pair in own;
      if pair in own {
        AttachOwnRole(perms, last, data[|init|].permissions, pair);
        assert data[pair.0 - next] == data[|init|];
      } else if pair.0 == last {
        assert data[pair.0 - next] == data[|init|];
      } else if next <= pair.0 < last {
        assert init[pair.0 - next] == data[pair.0 - next];
      }
    }
  }

  /** Every pair attached for a role carries that role's id. */
  lemma {:induction false} AttachOwnRole(perms: seq<Permission>, roleId: nat, slugs: seq<string>, pair: (nat, nat))
    requires pair in Attach(perms, roleId, slugs)
    ensures pair.0 == roleId
  {
    var init := slugs[..|slugs| - 1];
    if pair in Attach(perms, roleId, init) {
      AttachOwnRole(perms, roleId, init, pair);
    }
  }

  /** The permissions attached to role `roleId` (`$role->permissions`). */
  function PermissionsOf(perms: seq<Permission>, attached: seq<(nat, nat)>, roleId: nat): (r: seq<Permission>)
    ensures forall p :: p in r <==> p in perms && (roleId, p.id) in attached
  {
    Filter(perms, (p: Permission) => (roleId, p.id) in attached)
  }

  /** No two permissions share an id. */
  predicate IdsDistinct(perms: seq<Permission>)
  {
    forall i, j :: 0 <= i < j < |perms| ==> perms[i].id != perms[j].id
  }

  lemma CreatedIdsDistinct(data: seq<PermissionData>, next: nat)
    ensures IdsDistinct(CreatedPermissions(data, next))
  {
  }

  /** A role holds the permission a slug on its list finds. */
  lemma GrantedIfListed(perms: seq<Permission>, data: seq<RoleData>, next: nat, k: nat, s: string)
    requires k < |data|
    requires s in data[k].permissions && exists p :: p in perms && p.slug == s
    ensures HasPermissionSlug(PermissionsOf(perms, AttachAll(perms, data, next), next + k), s)
  {
    var q := FirstBySlug(perms, s).value;
    ListedPairAttached(perms, data, next, k, s);
    var held := PermissionsOf(perms, AttachAll(perms, data, next), next + k);
    assert q in held && q.slug == s;
  }

  /** A listed slug that finds a permission attaches that permission to the role. */
  lemma ListedPairAttached(perms: seq<Permission>, data: seq<RoleData>, next: nat, k: nat, s: string)
    requires k < |data| && s in data[k].permissions && FirstBySlug(perms, s).Some?
    ensures (next + k, FirstBySlug(perms, s).value.id) in AttachAll(perms, data, next)
  {
    var pair := (next + k, FirstBySlug(perms, s).value.id);
    AttachMembers(perms, next + k, data[k].permissions, pair);
    AttachAllMembers(perms, data, next, pair);
  }

  /** With distinct ids, a role holds a permission only if its list names that slug. */
  lemma ListedIfGranted(perms: seq<Permission>, data: seq<RoleData>, next: nat, k: nat, s: string)
    requires IdsDistinct(perms)
    requires k < |data|
    requires HasPermissionSlug(PermissionsOf(perms, AttachAll(perms, data, next), next + k), s)
    ensures s in data[k].permissions
  {
    var held := PermissionsOf(perms, AttachAll(perms, data, next), next + k);
    var p :| p in held && p.slug == s;
    var pair := (next + k, p.id);
    AttachAllMembers(perms, data, next, pair);
    AttachMembers(perms, next + k, data[k].permissions, pair);
    var t :| t in data[k].permissions && FirstBySlug(perms, t).Some? && FirstBySlug(perms, t).value.id == p.id;
    var q := FirstBySlug(perms, t).value;
    var i :| 0 <= i < |perms| && perms[i] == p;
    var j :| 0 <= j < |perms| && perms[j] == q;
    assert i == j;
  }

  /** When ids are distinct and every slug a role lists names a permission, the role holds a
      permission with slug `s` exactly when its list names `s`. */
  lemma GrantedIffListed(perms: seq<Permission>, data: seq<RoleData>, next: nat, k: nat, s: string)
    requires IdsDistinct(perms)
    requires k < |data|
    requires forall t :: t in data[k].permissions ==> exists p :: p in perms && p.slug == t
    ensures HasPermissionSlug(PermissionsOf(perms, AttachAll(perms, data, next), next + k), s)
      <==> s in data[k].permissions
  {
    if s in data[k].permissions {
      GrantedIfListed(perms, data, next, k, s);
    }
    if HasPermissionSlug(PermissionsOf(perms, AttachAll(perms, data, next), next + k), s) {
      ListedIfGranted(perms, data, next, k, s);
    }
  }

  /** After seeding an empty database the role created k-th, whose id is 1 + k, holds exactly
      the permissions its seed list names: the administrator all thirteen, `user` the three view
      permissions, and no role but the administrator a delete permission or system management. */
  lemma SeededRolesHoldListed(k: nat, s: string)
    requires k < |SeedRoles|
    ensures var perms := CreatedPermissions(SeedPermissions, 1);
      var held := PermissionsOf(perms, AttachAll(perms, SeedRoles, 1), 1 + k);
      HasPermissionSlug(held, s) <==> s in SeedRoles[k].permissions
  {
    var perms := CreatedPermissions(SeedPermissions, 1);
    CreatedIdsDistinct(SeedPermissions, 1);
    RoleSlugsSeeded();
    forall t | t in SeedRoles[k].permissions
      ensures exists p :: p in perms && p.slug == t
    {
      var slugs := SeedSlugs();
      assert t in slugs;
      var i :| 0 <= i < |slugs| && slugs[i] == t;
      assert |slugs| == |SeedPermissions| == |perms|;
      assert perms[i].slug == SeedPermissions[i].slug == t;
      assert perms[i] in perms;
    }
    GrantedIffListed(perms, SeedRoles, 1, k, s);
  }

  /** The seeded administrator holds every seeded permission. */
  lemma SeededAdminHoldsAll(k: nat, s: string)
    requires k < |SeedRoles| && SeedRoles[k].slug == "admin"
    requires s in SeedSlugs()
    ensures var perms := CreatedPermissions(SeedPermissions, 1);
      HasPermissionSlug(PermissionsOf(perms, AttachAll(perms, SeedRoles, 1), 1 + k), s)
  {
    AdminListsAll();
    assert k == 0;
    SeededRolesHoldListed(k, s);
  }

  /** Among the seeded roles, whatever `user` holds every role holds, and only the
      administrator holds a delete permission or system management. */
  lemma SeededRolesNest(k: nat, s: string)
    requires k < |SeedRoles|
    ensures var perms := CreatedPermissions(SeedPermissions, 1);
      var attached := AttachAll(perms, SeedRoles, 1);
      && (HasPermissionSlug(PermissionsOf(perms, attached, 1 + 3), s) ==> HasPermissionSlug(PermissionsOf(perms, attached, 1 + k), s))
      && (k != 0 && s in ["delete-census", "delete-accommodation", "delete-miqaat", "manage-system"]
          ==> !HasPermissionSlug(PermissionsOf(perms, attached, 1 + k), s))
  {
    RoleListsNest();
    SeededRolesHoldListed(k, s);
    SeededRolesHoldListed(3, s);
  }

  /** The seeder's tables. */
  class RoleStore {
    var permissions: seq<Permission>
    var nextPermissionId: nat
    var roles: seq<Role>
    var nextRoleId: nat
    var rolePermissions: seq<(nat, nat)>

    /** An empty database. */
    constructor ()
      ensures permissions == [] && roles == [] && rolePermissions == []
      ensures nextPermissionId == 1 && nextRoleId == 1
    {
      permissions := [];
      nextPermissionId := 1;
      roles := [];
      nextRoleId := 1;
      rolePermissions := [];
    }

    /** `RolesAndPermissionsSeeder::run`: creates the thirteen permissions, then each role
        followed by the attachments of the permissions its list names. */
    method Run()
      modifies this
      ensures permissions == old(permissions) + CreatedPermissions(SeedPermissions, old(nextPermissionId))
      ensures nextPermissionId == old(nextPermissionId) + |SeedPermissions|
      ensures roles == old(roles) + RoleRows(SeedRoles, old(nextRoleId))
      ensures nextRoleId == old(nextRoleId) + |SeedRoles|
      ensures rolePermissions == old(rolePermissions) + AttachAll(permissions, SeedRoles, old(nextRoleId))
    {
      Seed(SeedPermissions, SeedRoles);
    }

    /** The seeder's two loops over the given permission and role lists. */
    method Seed(permissionData: seq<PermissionData>, roleData: seq<RoleData>)
      modifies this
      ensures permissions == old(permissions) + CreatedPermissions(permissionData, old(nextPermissionId))
      ensures nextPermissionId == old(nextPermissionId) + |permissionData|
      ensures roles == old(roles) + RoleRows(roleData, old(nextRoleId))
      ensures nextRoleId == old(nextRoleId) + |roleData|
      ensures rolePermissions == old(rolePermissions) + AttachAll(permissions, roleData, old(nextRoleId))
    {
      CreatePermissions(permissionData);
      CreateRoles(roleData);
    }

    /** The second loop of the seeder: each role with its attachments. */
    method CreateRoles(roleData: seq<RoleData>)
      modifies this
      ensures roles == old(roles) + RoleRows(roleData, old(nextRoleId))
      ensures nextRoleId == old(nextRoleId) + |roleData|
      ensures rolePermissions == old(rolePermissions) + AttachAll(permissions, roleData, old(nextRoleId))
      ensures permissions == old(permissions) && nextPermissionId == old(nextPermissionId)
    {
      ghost var roles0, first, attached0 := roles, nextRoleId, rolePermissions;
      var j := 0;
      while j < |roleData|
        invariant 0 <= j <= |roleData|
        invariant permissions == old(permissions) && nextPermissionId == old(nextPermissionId)
        invariant roles == roles0 + RoleRows(roleData[..j], first)
        invariant nextRoleId == first + j
        invariant rolePermissions == attached0 + AttachAll(permissions, roleData[..j], first)
      {
        ghost var rolesBefore, attachedBefore := roles, rolePermissions;
        CreateRole(roleData[j]);
        RowsStep(roles0, rolesBefore, roles, roleData, j, first);
        AttachStep(attached0, attachedBefore, rolePermissions, permissions, roleData, j, first);
        j := j + 1;
      }
      assert roleData[..j] == roleData;
    }

    /** The first loop of the seeder: one `Permission::create` per entry. */
    method CreatePermissions(data: seq<PermissionData>)
      modifies this
      ensures permissions == old(permissions) + CreatedPermissions(data, old(nextPermissionId))
      ensures nextPermissionId == old(nextPermissionId) + |data|
      ensures roles == old(roles) && nextRoleId == old(nextRoleId) && rolePermissions == old(rolePermissions)
    {
      var i := 0;
      while i < |data|
        invariant 0 <= i <= |data|
        invariant permissions == old(permissions) + CreatedPermissions(data[..i], old(nextPermissionId))
        invariant nextPermissionId == old(nextPermissionId) + i
        invariant roles == old(roles) && nextRoleId == old(nextRoleId) && rolePermissions == old(rolePermissions)
      {
        CreatedSnoc(data, i, old(nextPermissionId));
        permissions := permissions + [Permission(nextPermissionId, data[i].name, data[i].slug)];
        nextPermissionId := nextPermissionId + 1;
        i := i + 1;
      }
      assert data[..i] == data;
    }

    /** One pass of the role loop: the role row, then an attachment for each listed slug that
        names a permission. */
    method CreateRole(data: RoleData)
      modifies this
      ensures roles == old(roles) + [RoleRow(data, old(nextRoleId))]
      ensures nextRoleId == old(nextRoleId) + 1
      ensures rolePermissions == old(rolePermissions) + Attach(permissions, old(nextRoleId), data.permissions)
      ensures permissions == old(permissions) && nextPermissionId == old(nextPermissionId)
    {
      var role := RoleRow(data, nextRoleId);
      roles := roles + [role];
      nextRoleId := nextRoleId + 1;
      var k := 0;
      while k < |data.permissions|
        invariant 0 <= k <= |data.permissions|
        invariant rolePermissions == old(rolePermissions) + Attach(permissions, role.id, data.permissions[..k])
        invariant roles == old(roles) + [role] && nextRoleId == old(nextRoleId) + 1
        invariant permissions == old(permissions) && nextPermissionId == old(nextPermissionId)
      {
        assert data.permissions[..k + 1][..k] == data.permissions[..k];
        var found := FirstBySlug(permissions, data.permissions[k]);
        if found.Some? {
          rolePermissions := rolePermissions + [(role.id, found.value.id)];
        }
        k := k + 1;
      }
      assert data.permissions[..k] == data.permissions;
    }
  }

  lemma CreatedSnoc(data: seq<PermissionData>, i: nat, next: nat)
    requires i < |data|
    ensures CreatedPermissions(data[..i + 1], next)
         == CreatedPermissions(data[..i], next) + [Permission(next + i, data[i].name, data[i].slug)]
  {
  }

  lemma RoleRowsSnoc(data: seq<RoleData>, j: nat, next: nat)
    requires j < |data|
    ensures RoleRows(data[..j + 1], next) == RoleRows(data[..j], next) + [RoleRow(data[j], next + j)]
  {
  }

  /** One pass of the role loop extends the role rows by the next entry's row. */
  lemma RowsStep(roles0: seq<Role>, before: seq<Role>, after: seq<Role>, data: seq<RoleData>, j: nat, next: nat)
    requires j < |data|
    requires before == roles0 + RoleRows(data[..j], next)
    requires after == before + [RoleRow(data[j], next + j)]
    ensures after == roles0 + RoleRows(data[..j + 1], next)
  {
    RoleRowsSnoc(data, j, next);
  }

  /** One pass of the role loop extends the attachments by the next entry's pairs. */
  lemma AttachStep(attached0: seq<(nat, nat)>, before: seq<(nat, nat)>, after: seq<(nat, nat)>,
                   perms: seq<Permission>, data: seq<RoleData>, j: nat, next: nat)
    requires j < |data|
    requires before == attached0 + AttachAll(perms, data[..j], next)
    requires after == before + Attach(perms, next + j, data[j].permissions)
    ensures after == attached0 + AttachAll(perms, data[..j + 1], next)
  {
    AttachAllSnoc(perms, data, j, next);
  }

  lemma AttachAllSnoc(perms: seq<Permission>, data: seq<RoleData>, j: nat, next: nat)
    requires j < |data|
    ensures AttachAll(perms, data[..j + 1], next) == AttachAll(perms, data[..j], next) + Attach(perms, next + j, data[j].permissions)
  {
    assert data[..j + 1][..j] == data[..j];
  }
}
