/** The role-based access control service: roles and permissions held through
    `user_roles`, the ownership lookup, and the `any` / `own` / basic permission cascade
    of `canPerformAction`. */
module Rbac {
  import opened Wrappers
  import Seqs

  datatype Role = Role(id: int, name: string)
  datatype Permission = Permission(id: int, name: string)
  datatype RolePermission = RolePermission(roleId: int, permissionId: int)
  datatype UserRole = UserRole(userId: int, roleId: int, assignedBy: Option<int>)
  /** A row of `posts`, `comments` or `stories`, of which only the owner matters. */
  datatype Owned = Owned(id: int, userId: int)

  /** The fixed tables: roles, permissions and their links, and the owned resources. */
  datatype Catalog = Catalog(
    roles: seq<Role>, permissions: seq<Permission>, rolePermissions: seq<RolePermission>,
    posts: seq<Owned>, comments: seq<Owned>, stories: seq<Owned>)

  /** `hasPermission`: some role of the user grants the named permission. */
  predicate HasPermission(c: Catalog, userRoles: seq<UserRole>, userId: int, name: string) {
    exists i, j, k :: 0 <= i < |userRoles| && 0 <= j < |c.rolePermissions| && 0 <= k < |c.permissions| &&
      userRoles[i].userId == userId && userRoles[i].roleId == c.rolePermissions[j].roleId &&
      c.rolePermissions[j].permissionId == c.permissions[k].id && c.permissions[k].name == name
  }

  /** `hasRole`. */
  predicate HasRole(c: Catalog, userRoles: seq<UserRole>, userId: int, roleName: string) {
    exists i, j :: 0 <= i < |userRoles| && 0 <= j < |c.roles| &&
      userRoles[i].userId == userId && userRoles[i].roleId == c.roles[j].id && c.roles[j].name == roleName
  }

  /** `getRoleByName`: the first role with that name. */
  function RoleByName(roles: seq<Role>, name: string): (r: Option<Role>)
    ensures r.Some? ==> r.value in roles && r.value.name == name
    ensures r.None? <==> forall j :: 0 <= j < |roles| ==> roles[j].name != name
  {
    if roles == [] then None
    else if roles[0].name == name then Some(roles[0])
    else RoleByName(roles[1..], name)
  }

  /** Role names are unique, as the table's key makes them. */
  ghost predicate UniqueNames(roles: seq<Role>) {
    forall i, j :: 0 <= i < |roles| && 0 <= j < |roles| && roles[i].name == roles[j].name ==> roles[i].id == roles[j].id
  }

  datatype Assigned = Assigned(message: string, role: string, userRoles: seq<UserRole>)

  /** `assignRole`: an unknown role throws, a role already held changes nothing, and
      otherwise one row is inserted. */
  function AssignRole(c: Catalog, userRoles: seq<UserRole>, userId: int, roleName: string, assignedBy: Option<int>): (r: Result<Assigned, string>)
    ensures RoleByName(c.roles, roleName).None? <==> r.Err?
    ensures r.Err? ==> r.error == "Role '" + roleName + "' not found"
    ensures r.Ok? && HasRole(c, userRoles, userId, roleName) ==> r.value.userRoles == userRoles && r.value.message == "Role already assigned"
    ensures r.Ok? && !HasRole(c, userRoles, userId, roleName) ==>
      r.value.userRoles == userRoles + [UserRole(userId, RoleByName(c.roles, roleName).value.id, assignedBy)] &&
      r.value.message == "Role assigned successfully"
    ensures r.Ok? ==> HasRole(c, r.value.userRoles, userId, roleName)
  {
    match RoleByName(c.roles, roleName)
    case None => Err("Role '" + roleName + "' not found")
    case Some(role) =>
      if HasRole(c, userRoles, userId, roleName) then Ok(Assigned("Role already assigned", role.name, userRoles))
      else
        var rows := userRoles + [UserRole(userId, role.id, assignedBy)];
        var j :| 0 <= j < |c.roles| && c.roles[j] == role;
        assert rows[|userRoles|].roleId == c.roles[j].id;
        Ok(Assigned("Role assigned successfully", role.name, rows))
  }

  /** Assigning a role twice is assigning it once. */
  lemma AssignIdempotent(c: Catalog, userRoles: seq<UserRole>, userId: int, roleName: string, assignedBy: Option<int>, assignedBy2: Option<int>)
    requires AssignRole(c, userRoles, userId, roleName, assignedBy).Ok?
    ensures var once := AssignRole(c, userRoles, userId, roleName, assignedBy).value.userRoles;
      AssignRole(c, once, userId, roleName, assignedBy2) == Ok(Assigned("Role already assigned", roleName, once))
  {}

  function WithoutRole(userRoles: seq<UserRole>, userId: int, roleId: int): (rows: seq<UserRole>)
    ensures forall x :: x in rows <==> x in userRoles && !(x.userId == userId && x.roleId == roleId)
    ensures |rows| <= |userRoles|
  {
    Seqs.Filter(userRoles, (x: UserRole) => !(x.userId == userId && x.roleId == roleId))
  }

  datatype Removed = Removed(role: string, rowsAffected: nat, userRoles: seq<UserRole>)

  /** `removeRole`: every `(user, role)` row is deleted. */
  function RemoveRole(c: Catalog, userRoles: seq<UserRole>, userId: int, roleName: string): (r: Result<Removed, string>)
    ensures RoleByName(c.roles, roleName).None? <==> r.Err?
    ensures r.Ok? ==> r.value.userRoles == WithoutRole(userRoles, userId, RoleByName(c.roles, roleName).value.id)
    ensures r.Ok? ==> r.value.rowsAffected == |userRoles| - |r.value.userRoles|
  {
    match RoleByName(c.roles, roleName)
    case None => Err("Role '" + roleName + "' not found")
    case Some(role) =>
      var rows := WithoutRole(userRoles, userId, role.id);
      Ok(Removed(role.name, |userRoles| - |rows|, rows))
  }

  /** With unique role names, a removed role is no longer held, and nobody else's roles
      change. */
  lemma RemoveRevokes(c: Catalog, userRoles: seq<UserRole>, userId: int, roleName: string)
    requires UniqueNames(c.roles) && RemoveRole(c, userRoles, userId, roleName).Ok?
    ensures !HasRole(c, RemoveRole(c, userRoles, userId, roleName).value.userRoles, userId, roleName)
    ensures forall x :: x in userRoles && x.userId != userId ==> x in RemoveRole(c, userRoles, userId, roleName).value.userRoles
  {
    var role := RoleByName(c.roles, roleName).value;
    var rows := RemoveRole(c, userRoles, userId, roleName).value.userRoles;
    var k :| 0 <= k < |c.roles| && c.roles[k] == role;
    forall i, j | 0 <= i < |rows| && 0 <= j < |c.roles| && rows[i].userId == userId && c.roles[j].name == roleName
      ensures rows[i].roleId != c.roles[j].id
    {
      assert rows[i] in rows;
      assert c.roles[j].id == c.roles[k].id;
    }
  }

  /** `isResourceOwner`: only posts, comments and stories are known. */
  function IsResourceOwner(c: Catalog, userId: int, resourceType: string, resourceId: int): (r: Result<bool, string>)
    ensures r.Err? <==> resourceType !in {"post", "comment", "story"}
    ensures r.Err? ==> r.error == "Unknown resource type: " + resourceType
    ensures resourceType == "post" ==> r == Ok(Owns(c.posts, userId, resourceId))
    ensures resourceType == "comment" ==> r == Ok(Owns(c.comments, userId, resourceId))
    ensures resourceType == "story" ==> r == Ok(Owns(c.stories, userId, resourceId))
  {
    if resourceType == "post" then Ok(Owns(c.posts, userId, resourceId))
    else if resourceType == "comment" then Ok(Owns(c.comments, userId, resourceId))
    else if resourceType == "story" then Ok(Owns(c.stories, userId, resourceId))
    else Err("Unknown resource type: " + resourceType)
  }

  predicate Owns(table: seq<Owned>, userId: int, id: int) {
    exists i :: 0 <= i < |table| && table[i].id == id && table[i].userId == userId
  }

  /** `canPerformAction`; `resourceId` 0 or absent is falsy. */
  function CanPerformAction(c: Catalog, userRoles: seq<UserRole>, userId: int, action: string, resource: string, resourceId: Option<int>): (r: Result<bool, string>)
    ensures HasPermission(c, userRoles, userId, resource + "." + action + ".any") ==> r == Ok(true)
    ensures (!HasPermission(c, userRoles, userId, resource + "." + action + ".any") &&
             HasPermission(c, userRoles, userId, resource + "." + action + ".own") && resourceId.Some? && resourceId.value != 0)
      ==> r == IsResourceOwner(c, userId, resource, resourceId.value)
    ensures (!HasPermission(c, userRoles, userId, resource + "." + action + ".any") &&
             !(HasPermission(c, userRoles, userId, resource + "." + action + ".own") && resourceId.Some? && resourceId.value != 0))
      ==> r == Ok(HasPermission(c, userRoles, userId, resource + "." + action))
  {
    if HasPermission(c, userRoles, userId, resource + "." + action + ".any") then Ok(true)
    else if HasPermission(c, userRoles, userId, resource + "." + action + ".own") && resourceId.Some? && resourceId.value != 0 then
      IsResourceOwner(c, userId, resource, resourceId.value)
    else Ok(HasPermission(c, userRoles, userId, resource + "." + action))
  }

  /** An `own` permission on a post grants the action exactly to the post's owner. */
  lemma OwnPermissionNeedsOwnership(c: Catalog, userRoles: seq<UserRole>, userId: int, action: string, postId: int)
    requires !HasPermission(c, userRoles, userId, "post." + action + ".any")
    requires HasPermission(c, userRoles, userId, "post." + action + ".own") && postId != 0
    ensures CanPerformAction(c, userRoles, userId, action, "post", Some(postId)) == Ok(true) <==> Owns(c.posts, userId, postId)
  {}

  /** The `user_roles` table with the service's two writes. */
  class RoleStore {
    const catalog: Catalog
    var userRoles: seq<UserRole>

    constructor (c: Catalog)
      ensures catalog == c && userRoles == []
    {
      catalog := c;
      userRoles := [];
    }

    method Assign(userId: int, roleName: string, assignedBy: Option<int>) returns (r: Result<(string, string), string>)
      modifies this
      ensures var a := AssignRole(catalog, old(userRoles), userId, roleName, assignedBy);
        (a.Err? ==> r == Err(a.error) && userRoles == old(userRoles)) &&
        (a.Ok? ==> r == Ok((a.value.message, a.value.role)) && userRoles == a.value.userRoles)
    {
      var a := AssignRole(catalog, userRoles, userId, roleName, assignedBy);
      if a.Err? {
        return Err(a.error);
      }
      userRoles := a.value.userRoles;
      r := Ok((a.value.message, a.value.role));
    }

    method Remove(userId: int, roleName: string) returns (r: Result<nat, string>)
      modifies this
      ensures var a := RemoveRole(catalog, old(userRoles), userId, roleName);
        (a.Err? ==> r == Err(a.error) && userRoles == old(userRoles)) &&
        (a.Ok? ==> r == Ok(a.value.rowsAffected) && userRoles == a.value.userRoles)
    {
      var a := RemoveRole(catalog, userRoles, userId, roleName);
      if a.Err? {
        return Err(a.error);
      }
      userRoles := a.value.userRoles;
      r := Ok(a.value.rowsAffected);
    }
  }
}
