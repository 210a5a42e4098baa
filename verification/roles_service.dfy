/** `RolesService` of the users app over the role, permission and link
    tables. Every operation on a role first looks the role up ('Role not
    found'); the link operations then look the permission up ('Permission
    not found'). Deleting a role deletes its links first. */
module RolesService {
  import opened Common
  import opened RbacTables
  import opened RolePermissionRepository

  /** The three tables. */
  datatype Rbac = Rbac(roles: seq<NamedRow>, permissions: seq<NamedRow>, links: Links)

  const RoleMessages := Messages("Role not found", "Role name is required", "Role name already exists", "Role name already exists")

  /** Every link names an existing role and an existing permission (the
      foreign keys of the link table). */
  predicate LinksValid(s: Rbac)
  {
    forall x :: x in s.links ==> FindById(s.roles, x.roleId).Some? && FindById(s.permissions, x.permissionId).Some?
  }

  /** `createRole`: `validateRole`, then the row with the generated id. */
  function CreateRole(s: Rbac, dto: NamedDto, newId: int): (r: Result<(Rbac, NamedRow), string>)
    ensures r == Err("Role name is required") <==> !Present(dto.name)
    ensures r == Err("Role name already exists") <==> Present(dto.name) && FindByName(s.roles, dto.name.value).Some?
    ensures r.Ok? <==> Present(dto.name) && FindByName(s.roles, dto.name.value).None?
    ensures r.Ok? ==>
      (r.value.0 == s.(roles := s.roles + [r.value.1])
       && r.value.1 == NamedRow(newId, dto.name.value, dto.description.GetOr("")))
  {
    match CreateNamed(s.roles, dto, newId, RoleMessages)
    case Err(e) => Err(e)
    case Ok((rows, row)) => Ok((s.(roles := rows), row))
  }

  /** `deleteRole`: the role's links go, then the role. */
  function DeleteRole(s: Rbac, roleId: int): (r: Result<Rbac, string>)
    ensures r == Err("Role not found") <==> FindById(s.roles, roleId).None?
    ensures r.Ok? <==> FindById(s.roles, roleId).Some?
    ensures r.Ok? ==>
      (r.value.permissions == s.permissions
       && r.value.roles == DeleteById(s.roles, roleId)
       && (forall x :: x in r.value.links <==> x in s.links && x.roleId != roleId))
  {
    if FindById(s.roles, roleId).None? then Err("Role not found")
    else
      var (links, _) := RemovePermissionsByRole(s.links, roleId);
      Ok(Rbac(DeleteById(s.roles, roleId), s.permissions, links))
  }

  /** Deleting a role leaves no link dangling. */
  lemma DeleteRoleKeepsLinksValid(s: Rbac, roleId: int)
    requires LinksValid(s) && DeleteRole(s, roleId).Ok?
    ensures LinksValid(DeleteRole(s, roleId).value)
  {
    var after := DeleteRole(s, roleId).value;
    forall x | x in after.links
      ensures FindById(after.roles, x.roleId).Some?
    {
      DeleteKeepsOtherIds(s.roles, roleId, x.roleId);
    }
  }

  /** `updateRole`. */
  function UpdateRole(s: Rbac, roleId: int, dto: NamedDto): (r: Result<(Rbac, NamedRow), string>)
    ensures r == Err("Role not found") <==> FindById(s.roles, roleId).None?
    ensures r == Err("Role name already exists") <==>
      (FindById(s.roles, roleId).Some? && Present(dto.name)
       && dto.name.value != s.roles[FindById(s.roles, roleId).value].name
       && FindByName(s.roles, dto.name.value).Some?)
    ensures r.Ok? <==>
      (FindById(s.roles, roleId).Some?
       && !(Present(dto.name) && dto.name.value != s.roles[FindById(s.roles, roleId).value].name
            && FindByName(s.roles, dto.name.value).Some?))
    ensures r.Ok? ==> var k := FindById(s.roles, roleId).value;
      r.value.0 == s.(roles := s.roles[k := r.value.1]) && r.value.1 == Patched(s.roles[k], dto)
  {
    match UpdateNamed(s.roles, roleId, dto, RoleMessages)
    case Err(e) => Err(e)
    case Ok((rows, row)) => Ok((s.(roles := rows), row))
  }

  /** Updating a role leaves no link dangling. */
  lemma UpdateRoleKeepsLinksValid(s: Rbac, roleId: int, dto: NamedDto)
    requires LinksValid(s) && UpdateRole(s, roleId, dto).Ok?
    ensures LinksValid(UpdateRole(s, roleId, dto).value.0)
  {
    var after := UpdateRole(s, roleId, dto).value.0;
    forall x | x in after.links
      ensures FindById(after.roles, x.roleId).Some?
    {
      UpdateKeepsIds(s.roles, roleId, dto, RoleMessages, x.roleId);
    }
  }

  /** `getRole`. */
  function GetRole(s: Rbac, roleId: int): (r: Result<NamedRow, string>)
    ensures r == Err("Role not found") <==> FindById(s.roles, roleId).None?
    ensures r.Ok? <==> FindById(s.roles, roleId).Some?
    ensures r.Ok? ==> r.value in s.roles && r.value.id == roleId
  {
    match FindById(s.roles, roleId)
    case None => Err("Role not found")
    case Some(k) => Ok(s.roles[k])
  }

  /** `getPermissionsByRole`: the ids of the role's permissions. */
  function GetPermissionsByRole(s: Rbac, roleId: int): (r: Result<set<int>, string>)
    ensures r == Err("Role not found") <==> FindById(s.roles, roleId).None?
    ensures r.Ok? <==> FindById(s.roles, roleId).Some?
    ensures r.Ok? ==> forall p :: p in r.value <==> RolePermission(roleId, p) in s.links
  {
    if FindById(s.roles, roleId).None? then Err("Role not found")
    else Ok(FindPermissionsByRole(s.links, roleId))
  }

  /** `assignPermissionToRole`. */
  function AssignPermissionToRole(s: Rbac, roleId: int, permId: int): (r: Result<(Rbac, RolePermission), string>)
    ensures r == Err("Role not found") <==> FindById(s.roles, roleId).None?
    ensures r == Err("Permission not found") <==>
      FindById(s.roles, roleId).Some? && FindById(s.permissions, permId).None?
    ensures r.Ok? <==> FindById(s.roles, roleId).Some? && FindById(s.permissions, permId).Some?
    ensures r.Ok? ==>
      (r.value.1 == RolePermission(roleId, permId)
       && r.value.0 == s.(links := s.links + {r.value.1}))
  {
    if FindById(s.roles, roleId).None? then Err("Role not found")
    else if FindById(s.permissions, permId).None? then Err("Permission not found")
    else
      var (links, link) := Assign(s.links, roleId, permId);
      Ok((s.(links := links), link))
  }

  /** Assigning keeps every link valid, and the role then lists the
      permission. */
  lemma AssignKeepsLinksValid(s: Rbac, roleId: int, permId: int)
    requires LinksValid(s) && AssignPermissionToRole(s, roleId, permId).Ok?
    ensures LinksValid(AssignPermissionToRole(s, roleId, permId).value.0)
    ensures var after := AssignPermissionToRole(s, roleId, permId).value.0;
      GetPermissionsByRole(after, roleId).Ok? && permId in GetPermissionsByRole(after, roleId).value
  {
  }

  /** `removePermissionFromRole(roleId, permId)`: true iff the link was
      there. */
  function RemovePermissionFromRole(s: Rbac, roleId: int, permId: int): (r: Result<(Rbac, bool), string>)
    ensures r == Err("Role not found") <==> FindById(s.roles, roleId).None?
    ensures r == Err("Permission not found") <==>
      FindById(s.roles, roleId).Some? && FindById(s.permissions, permId).None?
    ensures r.Ok? <==> FindById(s.roles, roleId).Some? && FindById(s.permissions, permId).Some?
    ensures r.Ok? ==>
      (r.value.1 == (RolePermission(roleId, permId) in s.links)
       && r.value.0 == s.(links := s.links - {RolePermission(roleId, permId)}))
  {
    if FindById(s.roles, roleId).None? then Err("Role not found")
    else if FindById(s.permissions, permId).None? then Err("Permission not found")
    else
      var (links, removed) := Remove(s.links, roleId, permId);
      Ok((s.(links := links), removed))
  }

  /** Removing keeps every link valid and undoes a fresh assignment. */
  lemma RemoveUndoesAssign(s: Rbac, roleId: int, permId: int)
    requires LinksValid(s) && RolePermission(roleId, permId) !in s.links
    requires AssignPermissionToRole(s, roleId, permId).Ok?
    ensures var after := AssignPermissionToRole(s, roleId, permId).value.0;
      RemovePermissionFromRole(after, roleId, permId) == Ok((s, true))
  {
    var x := RolePermission(roleId, permId);
    assert (s.links + {x}) - {x} == s.links;
  }
}
