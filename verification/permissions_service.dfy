/** `PermissionService` of the users app: the same table rules as roles,
    with its own texts (the create path says 'Permissions name already
    exists', the update path 'Permission name already exists'). Deleting a
    permission deletes every link to it first. */
module PermissionService {
  import opened Common
  import opened RbacTables
  import opened RolePermissionRepository
  import opened RolesService

  const PermissionMessages := Messages("Permission not found", "Permission name is required", "Permissions name already exists", "Permission name already exists")

  /** `createPermission`. */
  function CreatePermission(s: Rbac, dto: NamedDto, newId: int): (r: Result<(Rbac, NamedRow), string>)
    ensures r == Err("Permission name is required") <==> !Present(dto.name)
    ensures r == Err("Permissions name already exists") <==> Present(dto.name) && FindByName(s.permissions, dto.name.value).Some?
    ensures r.Ok? <==> Present(dto.name) && FindByName(s.permissions, dto.name.value).None?
    ensures r.Ok? ==>
      (r.value.0 == s.(permissions := s.permissions + [r.value.1])
       && r.value.1 == NamedRow(newId, dto.name.value, dto.description.GetOr("")))
  {
    match CreateNamed(s.permissions, dto, newId, PermissionMessages)
    case Err(e) => Err(e)
    case Ok((rows, row)) => Ok((s.(permissions := rows), row))
  }

  /** `deletePermission`: every link to the permission goes, then the
      permission. */
  function DeletePermission(s: Rbac, permId: int): (r: Result<Rbac, string>)
    ensures r == Err("Permission not found") <==> FindById(s.permissions, permId).None?
    ensures r.Ok? <==> FindById(s.permissions, permId).Some?
    ensures r.Ok? ==>
      (r.value.roles == s.roles
       && r.value.permissions == DeleteById(s.permissions, permId)
       && (forall x :: x in r.value.links <==> x in s.links && x.permissionId != permId))
  {
    if FindById(s.permissions, permId).None? then Err("Permission not found")
    else
      var (links, _) := RolePermissionRepository.RemovePermissionFromRole(s.links, permId);
      Ok(Rbac(s.roles, DeleteById(s.permissions, permId), links))
  }

  /** Deleting a permission leaves no link dangling. */
  lemma DeletePermissionKeepsLinksValid(s: Rbac, permId: int)
    requires LinksValid(s) && DeletePermission(s, permId).Ok?
    ensures LinksValid(DeletePermission(s, permId).value)
  {
    var after := DeletePermission(s, permId).value;
    forall x | x in after.links
      ensures FindById(after.permissions, x.permissionId).Some?
    {
      DeleteKeepsOtherIds(s.permissions, permId, x.permissionId);
    }
  }

  /** `updatePermission`. */
  function UpdatePermission(s: Rbac, permId: int, dto: NamedDto): (r: Result<(Rbac, NamedRow), string>)
    ensures r == Err("Permission not found") <==> FindById(s.permissions, permId).None?
    ensures r == Err("Permission name already exists") <==>
      (FindById(s.permissions, permId).Some? && Present(dto.name)
       && dto.name.value != s.permissions[FindById(s.permissions, permId).value].name
       && FindByName(s.permissions, dto.name.value).Some?)
    ensures r.Ok? <==>
      (FindById(s.permissions, permId).Some?
       && !(Present(dto.name) && dto.name.value != s.permissions[FindById(s.permissions, permId).value].name
            && FindByName(s.permissions, dto.name.value).Some?))
    ensures r.Ok? ==> var k := FindById(s.permissions, permId).value;
      r.value.0 == s.(permissions := s.permissions[k := r.value.1]) && r.value.1 == Patched(s.permissions[k], dto)
  {
    match UpdateNamed(s.permissions, permId, dto, PermissionMessages)
    case Err(e) => Err(e)
    case Ok((rows, row)) => Ok((s.(permissions := rows), row))
  }

  /** Updating a permission leaves no link dangling. */
  lemma UpdatePermissionKeepsLinksValid(s: Rbac, permId: int, dto: NamedDto)
    requires LinksValid(s) && UpdatePermission(s, permId, dto).Ok?
    ensures LinksValid(UpdatePermission(s, permId, dto).value.0)
  {
    var after := UpdatePermission(s, permId, dto).value.0;
    forall x | x in after.links
      ensures FindById(after.permissions, x.permissionId).Some?
    {
      UpdateKeepsIds(s.permissions, permId, dto, PermissionMessages, x.permissionId);
    }
  }

  /** `getPermission`. */
  function GetPermission(s: Rbac, permId: int): (r: Result<NamedRow, string>)
    ensures r == Err("Permission not found") <==> FindById(s.permissions, permId).None?
    ensures r.Ok? <==> FindById(s.permissions, permId).Some?
    ensures r.Ok? ==> r.value in s.permissions && r.value.id == permId
  {
    match FindById(s.permissions, permId)
    case None => Err("Permission not found")
    case Some(k) => Ok(s.permissions[k])
  }

  /** The two create texts differ from the update text: a clash found on
      create and one found on update are reported differently. */
  lemma CreateAndUpdateTextsDiffer()
    ensures PermissionMessages.nameTaken != PermissionMessages.nameTakenOnUpdate
  {
    assert PermissionMessages.nameTaken[10] == 's';
  }
}
