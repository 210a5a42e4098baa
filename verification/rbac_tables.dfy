/** The role and permission tables of the users app. Roles and permissions
    have the same shape (a generated id, a unique name, a description) and
    the same service rules, which are stated once here: creation refuses an
    empty or taken name, an update renames only to a new name nobody holds
    and replaces the description only with a non-empty one. Each service
    supplies its own messages. */
module RbacTables {
  import opened Common
  import opened Tables

  /** A role or a permission row. The mappers store a missing description
      as ''. */
  datatype NamedRow = NamedRow(id: int, name: string, description: string)

  /** A create or update form. */
  datatype NamedDto = NamedDto(name: Option<string>, description: Option<string>)

  /** The error texts of one service. */
  datatype Messages = Messages(notFound: string, nameRequired: string, nameTaken: string, nameTakenOnUpdate: string)

  /** `findById`. */
  function FindById(rows: seq<NamedRow>, id: int): (r: Option<nat>)
    ensures r.Some? ==> r.value < |rows| && rows[r.value].id == id
    ensures r.None? <==> forall i :: 0 <= i < |rows| ==> rows[i].id != id
  {
    FirstWhere(rows, (x: NamedRow) => x.id == id)
  }

  /** `findByName`: exact match. */
  function FindByName(rows: seq<NamedRow>, name: string): (r: Option<nat>)
    ensures r.Some? ==> r.value < |rows| && rows[r.value].name == name
    ensures r.None? <==> forall i :: 0 <= i < |rows| ==> rows[i].name != name
  {
    FirstWhere(rows, (x: NamedRow) => x.name == name)
  }

  /** No two rows share a name (the unique column). */
  predicate UniqueNames(rows: seq<NamedRow>)
  {
    forall i, j :: 0 <= i < j < |rows| ==> rows[i].name != rows[j].name
  }

  /** No two rows share an id (the primary key). */
  predicate UniqueIds(rows: seq<NamedRow>)
  {
    forall i, j :: 0 <= i < j < |rows| ==> rows[i].id != rows[j].id
  }

  /** `delete(id)`: the rows with another id, in order. */
  function DeleteById(rows: seq<NamedRow>, id: int): (r: seq<NamedRow>)
    ensures FindById(r, id).None?
    ensures forall x :: x in r <==> x in rows && x.id != id
  {
    var r := Filter(rows, (x: NamedRow) => x.id != id);
    assert forall i :: 0 <= i < |r| ==> r[i] in r;
    r
  }

  /** Deleting rows keeps names and ids unique. */
  lemma DeleteKeepsUnique(rows: seq<NamedRow>, id: int)
    requires UniqueNames(rows) && UniqueIds(rows)
    ensures UniqueNames(DeleteById(rows, id)) && UniqueIds(DeleteById(rows, id))
  {
    FilterKeepsUnique(rows, (x: NamedRow) => x.id != id);
  }

  /** Deleting one id leaves every other id findable exactly when it was. */
  lemma DeleteKeepsOtherIds(rows: seq<NamedRow>, id: int, other: int)
    requires other != id
    ensures FindById(DeleteById(rows, id), other).Some? <==> FindById(rows, other).Some?
  {
    var r := DeleteById(rows, id);
    if FindById(rows, other).Some? {
      var k := FindById(rows, other).value;
      assert rows[k] in r;
      var j :| 0 <= j < |r| && r[j] == rows[k];
    }
    if FindById(r, other).Some? {
      var j := FindById(r, other).value;
      assert r[j] in rows;
      var i :| 0 <= i < |rows| && rows[i] == r[j];
    }
  }

  /** An update keeps every id findable exactly when it was. */
  lemma UpdateKeepsIds(rows: seq<NamedRow>, id: int, dto: NamedDto, m: Messages, other: int)
    requires UpdateNamed(rows, id, dto, m).Ok?
    ensures FindById(UpdateNamed(rows, id, dto, m).value.0, other).Some? <==> FindById(rows, other).Some?
  {
    var k := FindById(rows, id).value;
    var after := UpdateNamed(rows, id, dto, m).value.0;
    assert forall i :: 0 <= i < |rows| ==> after[i].id == rows[i].id;
  }

  /** A sub-sequence of a table with unique names and ids has them too. */
  lemma {:induction false} FilterKeepsUnique(rows: seq<NamedRow>, p: NamedRow -> bool)
    requires UniqueNames(rows) && UniqueIds(rows)
    ensures UniqueNames(Filter(rows, p)) && UniqueIds(Filter(rows, p))
  {
    if |rows| > 0 {
      var n := |rows| - 1;
      FilterKeepsUnique(rows[..n], p);
      var f := Filter(rows[..n], p);
      forall x | x in f
        ensures x.name != rows[n].name && x.id != rows[n].id
      {
        var k :| 0 <= k < n && rows[k] == x;
      }
    }
  }

  /** The service's create: a name is required and must be free; the new
      row gets the generated id. */
  function CreateNamed(rows: seq<NamedRow>, dto: NamedDto, newId: int, m: Messages): (r: Result<(seq<NamedRow>, NamedRow), string>)
    ensures r == Err(m.nameRequired) <== !Present(dto.name)
    ensures r.Err? ==> !Present(dto.name) || FindByName(rows, dto.name.value).Some?
    ensures Present(dto.name) && FindByName(rows, dto.name.value).Some? ==> r == Err(m.nameTaken)
    ensures r.Ok? ==>
      (Present(dto.name) && r.value.0 == rows + [r.value.1]
       && r.value.1 == NamedRow(newId, dto.name.value, dto.description.GetOr("")))
  {
    if !Present(dto.name) then Err(m.nameRequired)
    else if FindByName(rows, dto.name.value).Some? then Err(m.nameTaken)
    else
      var row := NamedRow(newId, dto.name.value, dto.description.GetOr(""));
      Ok((rows + [row], row))
  }

  /** Creation keeps names unique, and ids too when the generated id is
      new. */
  lemma CreateKeepsUnique(rows: seq<NamedRow>, dto: NamedDto, newId: int, m: Messages)
    requires UniqueNames(rows)
    requires CreateNamed(rows, dto, newId, m).Ok?
    ensures UniqueNames(CreateNamed(rows, dto, newId, m).value.0)
    ensures UniqueIds(rows) && FindById(rows, newId).None? ==> UniqueIds(CreateNamed(rows, dto, newId, m).value.0)
  {
  }

  /** A name taken once is refused the second time. */
  lemma CreateTwiceRefused(rows: seq<NamedRow>, dto: NamedDto, id1: int, id2: int, m: Messages)
    requires CreateNamed(rows, dto, id1, m).Ok?
    ensures CreateNamed(CreateNamed(rows, dto, id1, m).value.0, dto, id2, m) == Err(m.nameTaken)
  {
    var after := CreateNamed(rows, dto, id1, m).value.0;
    assert after[|rows|].name == dto.name.value;
  }

  /** The row after an update form: a non-empty new name replaces the old
      one, a non-empty description replaces the old one. */
  function Patched(x: NamedRow, dto: NamedDto): NamedRow
  {
    x.(name := if Present(dto.name) then dto.name.value else x.name,
       description := if Present(dto.description) then dto.description.value else x.description)
  }

  /** The service's update: the row must exist; a non-empty name that
      differs from the current one must be free; the row is saved in
      place. */
  function UpdateNamed(rows: seq<NamedRow>, id: int, dto: NamedDto, m: Messages): (r: Result<(seq<NamedRow>, NamedRow), string>)
    ensures r == Err(m.notFound) <== FindById(rows, id).None?
    ensures r.Err? ==> FindById(rows, id).None? || r == Err(m.nameTakenOnUpdate)
    ensures r.Ok? ==> var k := FindById(rows, id).value;
      r.value.0 == rows[k := r.value.1] && r.value.1 == Patched(rows[k], dto)
    ensures FindById(rows, id).Some? ==>
      (r == Err(m.nameTakenOnUpdate) <==>
         Present(dto.name) && dto.name.value != rows[FindById(rows, id).value].name && FindByName(rows, dto.name.value).Some?)
  {
    match FindById(rows, id)
    case None => Err(m.notFound)
    case Some(k) =>
      if Present(dto.name) && dto.name.value != rows[k].name && FindByName(rows, dto.name.value).Some? then
        Err(m.nameTakenOnUpdate)
      else
        var row := Patched(rows[k], dto);
        Ok((rows[k := row], row))
  }

  /** Updates keep names and ids unique. */
  lemma UpdateKeepsUnique(rows: seq<NamedRow>, id: int, dto: NamedDto, m: Messages)
    requires UniqueNames(rows) && UniqueIds(rows)
    requires UpdateNamed(rows, id, dto, m).Ok?
    ensures UniqueNames(UpdateNamed(rows, id, dto, m).value.0) && UniqueIds(UpdateNamed(rows, id, dto, m).value.0)
  {
  }

  /** An update with nothing in it changes nothing. */
  lemma EmptyUpdateIsSave(rows: seq<NamedRow>, id: int, m: Messages)
    requires FindById(rows, id).Some?
    ensures UpdateNamed(rows, id, NamedDto(None, Some("")), m) == Ok((rows, rows[FindById(rows, id).value]))
  {
    var k := FindById(rows, id).value;
    assert Patched(rows[k], NamedDto(None, Some(""))) == rows[k];
    assert rows[k := rows[k]] == rows;
  }
}
