/** `CategoryService`: a registry of category names keyed by an
    auto-incremented id, in which every stored name is lower-case and no
    name is stored twice. The repository table is the map `rows`, and
    `nextId` is the id the database hands out on the next insert. */
module Category {
  import opened Wrappers
  import opened Text
  import opened Numbers
  import opened NameTable

  /** The message of the BadRequest raised for a taken name. */
  const NameTakenMessage: string := "Danh mục với tên này đã tồn tại"

  /** The message of the NotFound raised for a missing id. */
  function NotFoundMessage(id: int): (m: string)
    ensures IsPrefix("Category with ID ", m)
    ensures ParseInt(m[|"Category with ID "|..]) == Some(id)
  {
    var m := "Category with ID " + ShowInt(id) + " not found";
    ParseIntOfShowIntFollowedBy(id, " not found");
    assert m[|"Category with ID "|..] == ShowInt(id) + " not found";
    m
  }

  class CategoryService {
    var rows: Table
    var nextId: int

    /** Ids are positive and below the next one handed out; names are
        lower-case and pairwise distinct. */
    ghost predicate Valid()
      reads this
    {
      0 < nextId &&
      (forall id :: id in rows ==> 0 < id < nextId) &&
      NamesDistinct(rows) && AllLower(rows)
    }

    /** An empty table whose first id is 1. */
    constructor ()
      ensures Valid()
      ensures rows == map[] && nextId == 1
    {
      rows := map[];
      nextId := 1;
    }

    /** `isCategoryNameUnique`: no row other than a truthy `excludeId`
        holds the lower-cased name. */
    function IsCategoryNameUnique(name: string, excludeId: Option<int>): (r: bool)
      reads this
      ensures r <==> forall id :: id in rows && rows[id] == Lower(name) ==> IsExcluded(excludeId, id)
    {
      IsNameUnique(rows, name, excludeId)
    }

    /** `findAll`: every row of the table. */
    function FindAll(): (r: set<Row>)
      reads this
      ensures forall row :: row in r <==> row.id in rows && rows[row.id] == row.name
    {
      set id | id in rows :: Row(id, rows[id])
    }

    /** `findOne`: the row with that id, or NotFound. */
    function FindOne(id: int): (r: Outcome<Row>)
      reads this
      ensures r.Ok? <==> id in rows
      ensures r.Ok? ==> r.value == Row(id, rows[id])
      ensures r.Err? ==> r.error == NotFound(NotFoundMessage(id))
    {
      if id in rows then Ok(Row(id, rows[id])) else Err(NotFound(NotFoundMessage(id)))
    }

    /** `create`: rejects a name already held, in any letter case, and
        otherwise inserts the lower-cased name under a fresh id. */
    method Create(name: string) returns (r: Outcome<Row>)
      requires Valid()
      modifies this
      ensures Valid()
      ensures !IsNameUnique(old(rows), name, None) ==>
        r == Err(BadRequest(NameTakenMessage)) && rows == old(rows) && nextId == old(nextId)
      ensures IsNameUnique(old(rows), name, None) ==>
        r == Ok(Row(old(nextId), Lower(name))) && old(nextId) !in old(rows) &&
        rows == old(rows)[old(nextId) := Lower(name)] && nextId == old(nextId) + 1
    {
      if !IsCategoryNameUnique(name, None) {
        return Err(BadRequest(NameTakenMessage));
      }
      WriteKeepsInvariant(rows, nextId, name, None);
      var id := nextId;
      rows := rows[id := Lower(name)];
      nextId := nextId + 1;
      r := Ok(Row(id, Lower(name)));
    }

    /** `update`: NotFound for a missing id before anything else; then
        rejects a name held by another row; otherwise renames that row to
        the lower-cased name and leaves every other row as it was. */
    method Update(id: int, name: string) returns (r: Outcome<Row>)
      requires Valid()
      modifies this
      ensures Valid()
      ensures nextId == old(nextId)
      ensures id !in old(rows) ==>
        r == Err(NotFound(NotFoundMessage(id))) && rows == old(rows)
      ensures id in old(rows) && !IsNameUnique(old(rows), name, Some(id)) ==>
        r == Err(BadRequest(NameTakenMessage)) && rows == old(rows)
      ensures id in old(rows) && IsNameUnique(old(rows), name, Some(id)) ==>
        r == Ok(Row(id, Lower(name))) && rows == old(rows)[id := Lower(name)]
    {
      var found := FindOne(id);
      if found.Err? {
        return Err(found.error);
      }
      if !IsCategoryNameUnique(name, Some(id)) {
        return Err(BadRequest(NameTakenMessage));
      }
      WriteKeepsInvariant(rows, id, name, Some(id));
      var category := found.value.(name := Lower(name));
      rows := rows[id := category.name];
      r := Ok(category);
    }

    /** `remove`: NotFound for a missing id; otherwise deletes exactly that
        row. */
    method Remove(id: int) returns (r: Outcome<()>)
      requires Valid()
      modifies this
      ensures Valid()
      ensures nextId == old(nextId)
      ensures id !in old(rows) ==> r == Err(NotFound(NotFoundMessage(id))) && rows == old(rows)
      ensures id in old(rows) ==> r == Ok(()) && rows == old(rows) - {id}
    {
      var found := FindOne(id);
      if found.Err? {
        return Err(found.error);
      }
      rows := rows - {id};
      r := Ok(());
    }
  }

  /** On a fresh service, a second create with a name equal to the first
      up to letter case is rejected. */
  method CreateTwiceRejected(name: string, shouted: string) returns (second: Outcome<Row>)
    requires Lower(shouted) == Lower(name)
    ensures second == Err(BadRequest(NameTakenMessage))
  {
    var s := new CategoryService();
    var first := s.Create(name);
    second := s.Create(shouted);
  }

  /** On a fresh service, a created category may be renamed to its own
      name written in another letter case. */
  method RenameToOwnNameAccepted(name: string, shouted: string) returns (renamed: Outcome<Row>)
    requires Lower(shouted) == Lower(name)
    ensures renamed == Ok(Row(1, Lower(name)))
  {
    var s := new CategoryService();
    var first := s.Create(name);
    renamed := s.Update(1, shouted);
  }
}
