/** What the category and tag services share: a table from id to name, the
    uniqueness query both run before writing a name, and the facts that
    keep every stored name lower-case and no name stored twice. */
module NameTable {
  import opened Wrappers
  import opened Text

  /** The rows of the table: id to name. */
  type Table = map<int, string>

  /** One row as the services return it. */
  datatype Row = Row(id: int, name: string)

  /** Every stored name is lower-case. */
  ghost predicate AllLower(t: Table)
  {
    forall id :: id in t ==> IsLower(t[id])
  }

  /** No two rows hold the same name. */
  ghost predicate NamesDistinct(t: Table)
  {
    forall i, j :: i in t && j in t && i != j ==> t[i] != t[j]
  }

  /** The exclude id only applies when it is truthy: undefined and 0 both
      leave every row in the query. */
  predicate IsExcluded(excludeId: Option<int>, id: int)
  {
    excludeId.Some? && excludeId.value != 0 && id == excludeId.value
  }

  /** The uniqueness query: looks for a row holding the lower-cased name,
      with the row whose id is a truthy `excludeId` left out, and answers
      whether there is none. */
  function IsNameUnique(t: Table, name: string, excludeId: Option<int>): (r: bool)
    ensures r <==> forall id :: id in t && t[id] == Lower(name) ==> IsExcluded(excludeId, id)
  {
    var searched := if excludeId.Some? && excludeId.value != 0 then t - {excludeId.value} else t;
    var wanted := Lower(name);
    assert forall id :: id in searched <==> id in t && !IsExcluded(excludeId, id);
    assert forall id :: id in searched ==> searched[id] == t[id];
    ValuesHeld(searched, wanted);
    wanted !in searched.Values
  }

  /** A value is among a map's values exactly when some key maps to it. */
  lemma ValuesHeld(m: Table, v: string)
    ensures v in m.Values <==> exists id :: id in m && m[id] == v
  {
    if exists id :: id in m && m[id] == v {
      var id :| id in m && m[id] == v;
      assert m[id] in m.Values;
    }
  }

  /** A name that differs from a stored one only in the case of its letters
      is taken. */
  lemma TakenNameRejected(t: Table, id: int, name: string)
    requires id in t && t[id] == Lower(name)
    ensures !IsNameUnique(t, name, None)
  {
  }

  /** Renaming a row to a name another row holds is rejected. */
  lemma NameOfOtherRowRejected(t: Table, id: int, other: int, name: string)
    requires other in t && other != id && t[other] == Lower(name)
    ensures !IsNameUnique(t, name, Some(id))
  {
  }

  /** A row with a truthy id may be renamed to its own current name, in any
      letter case, because its own row is left out of the query. */
  lemma {:induction false} OwnNameAccepted(t: Table, id: int, name: string)
    requires NamesDistinct(t) && AllLower(t)
    requires id in t && id != 0 && Lower(name) == Lower(t[id])
    ensures IsNameUnique(t, name, Some(id))
  {
    LowerOfLower(t[id]);
  }

  /** The row with id 0 cannot keep its own name: 0 is falsy, so the query
      finds the row itself. */
  lemma ZeroIdCannotKeepOwnName(t: Table, name: string)
    requires 0 in t && t[0] == Lower(name)
    ensures !IsNameUnique(t, name, Some(0))
  {
  }

  /** Writing the lower-cased name into row `id` keeps the table's
      invariant when the query, run with no exclude id or with `id` itself,
      answered true: this covers create (a fresh id, no exclude id) and
      update (the row's own id). */
  lemma {:induction false} WriteKeepsInvariant(t: Table, id: int, name: string, excludeId: Option<int>)
    requires NamesDistinct(t) && AllLower(t)
    requires IsNameUnique(t, name, excludeId)
    requires excludeId == None || excludeId == Some(id)
    ensures NamesDistinct(t[id := Lower(name)]) && AllLower(t[id := Lower(name)])
  {
    var t' := t[id := Lower(name)];
    forall i, j | i in t' && j in t' && i != j
      ensures t'[i] != t'[j]
    {
      if i == id {
        assert j in t && !IsExcluded(excludeId, j);
      } else if j == id {
        assert i in t && !IsExcluded(excludeId, i);
      }
    }
  }
}
