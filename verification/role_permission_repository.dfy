/** `RolePermissionRepository`: the links between roles and permissions.
    The (role, permission) pair is the table's key, so the links form a set:
    saving a pair that is already there leaves one link. The bulk deletes
    answer with the number of links they removed. */
module RolePermissionRepository {

  datatype RolePermission = RolePermission(roleId: int, permissionId: int)

  type Links = set<RolePermission>

  /** `findOneByIds`. */
  function FindOneByIds(links: Links, roleId: int, permId: int): (r: bool)
    ensures r <==> RolePermission(roleId, permId) in links
  {
    RolePermission(roleId, permId) in links
  }

  /** `findPermissionsByRole`: the permission of every link of the role. */
  function FindPermissionsByRole(links: Links, roleId: int): (r: set<int>)
    ensures forall p :: p in r <==> RolePermission(roleId, p) in links
  {
    set x | x in links && x.roleId == roleId :: x.permissionId
  }

  /** `findRolesByPermission`: the role of every link of the permission. */
  function FindRolesByPermission(links: Links, permId: int): (r: set<int>)
    ensures forall q :: q in r <==> RolePermission(q, permId) in links
  {
    set x | x in links && x.permissionId == permId :: x.roleId
  }

  /** `assign`: save the pair. */
  function Assign(links: Links, roleId: int, permId: int): (r: (Links, RolePermission))
    ensures r.1 == RolePermission(roleId, permId) && r.1 in r.0
    ensures forall x :: x != r.1 ==> (x in r.0 <==> x in links)
  {
    var x := RolePermission(roleId, permId);
    (links + {x}, x)
  }

  /** Assigning the same pair twice leaves a single link. */
  lemma AssignIdempotent(links: Links, roleId: int, permId: int)
    ensures Assign(Assign(links, roleId, permId).0, roleId, permId) == Assign(links, roleId, permId)
  {
  }

  /** `remove`: delete the pair; true iff a link was deleted. */
  function Remove(links: Links, roleId: int, permId: int): (r: (Links, bool))
    ensures r.1 <==> RolePermission(roleId, permId) in links
    ensures RolePermission(roleId, permId) !in r.0
    ensures forall x :: x != RolePermission(roleId, permId) ==> (x in r.0 <==> x in links)
    ensures r.1 <==> |r.0| < |links|
  {
    var x := RolePermission(roleId, permId);
    (links - {x}, x in links)
  }

  /** Removing undoes assigning a pair that was not there; a second
      removal finds nothing. */
  lemma AssignThenRemove(links: Links, roleId: int, permId: int)
    requires RolePermission(roleId, permId) !in links
    ensures var (after, _) := Assign(links, roleId, permId);
      Remove(after, roleId, permId) == (links, true)
      && Remove(Remove(after, roleId, permId).0, roleId, permId) == (links, false)
  {
    var x := RolePermission(roleId, permId);
    assert (links + {x}) - {x} == links;
    assert links - {x} == links;
  }

  /** The links of a role. */
  function OfRole(links: Links, roleId: int): Links
  {
    set x | x in links && x.roleId == roleId
  }

  /** The links of a permission. */
  function OfPermission(links: Links, permId: int): Links
  {
    set x | x in links && x.permissionId == permId
  }

  /** `removePermissionsByRole`: every link of the role goes; the count is
      the number of links it had. */
  function RemovePermissionsByRole(links: Links, roleId: int): (r: (Links, nat))
    ensures forall x :: x in r.0 <==> x in links && x.roleId != roleId
    ensures r.1 == |OfRole(links, roleId)|
    ensures r.1 == 0 <==> FindPermissionsByRole(links, roleId) == {}
  {
    var kept := set x | x in links && x.roleId != roleId;
    SplitCount(links, kept, OfRole(links, roleId));
    OfRoleEmpty(links, roleId);
    (kept, |links| - |kept|)
  }

  /** `removePermissionFromRole(permId)`: despite its name, every link of
      the permission goes, whatever the role; the count is the number of
      links it had. */
  function RemovePermissionFromRole(links: Links, permId: int): (r: (Links, nat))
    ensures forall x :: x in r.0 <==> x in links && x.permissionId != permId
    ensures r.1 == |OfPermission(links, permId)|
    ensures r.1 == 0 <==> FindRolesByPermission(links, permId) == {}
  {
    var kept := set x | x in links && x.permissionId != permId;
    SplitCount(links, kept, OfPermission(links, permId));
    OfPermissionEmpty(links, permId);
    (kept, |links| - |kept|)
  }

  /** A role has links exactly when it has permissions. */
  lemma OfRoleEmpty(links: Links, roleId: int)
    ensures OfRole(links, roleId) == {} <==> FindPermissionsByRole(links, roleId) == {}
  {
    if OfRole(links, roleId) != {} {
      var x :| x in OfRole(links, roleId);
      assert x.permissionId in FindPermissionsByRole(links, roleId);
    }
    if FindPermissionsByRole(links, roleId) != {} {
      var p :| p in FindPermissionsByRole(links, roleId);
      assert RolePermission(roleId, p) in OfRole(links, roleId);
    }
  }

  /** A permission has links exactly when it has roles. */
  lemma OfPermissionEmpty(links: Links, permId: int)
    ensures OfPermission(links, permId) == {} <==> FindRolesByPermission(links, permId) == {}
  {
    if OfPermission(links, permId) != {} {
      var x :| x in OfPermission(links, permId);
      assert x.roleId in FindRolesByPermission(links, permId);
    }
    if FindRolesByPermission(links, permId) != {} {
      var q :| q in FindRolesByPermission(links, permId);
      assert RolePermission(q, permId) in OfPermission(links, permId);
    }
  }

  /** A set split into two disjoint parts has the sum of their sizes. */
  lemma SplitCount(all: Links, a: Links, b: Links)
    requires a !! b && all == a + b
    ensures |all| == |a| + |b|
  {
  }

  /** Removing by role and then looking the role up finds nothing, and the
      other roles keep their permissions. */
  lemma RemoveByRoleClears(links: Links, roleId: int, other: int)
    requires other != roleId
    ensures FindPermissionsByRole(RemovePermissionsByRole(links, roleId).0, roleId) == {}
    ensures FindPermissionsByRole(RemovePermissionsByRole(links, roleId).0, other) == FindPermissionsByRole(links, other)
  {
  }
}
