/** The category catalogue: the listing with its optional name search, and
    create, update and delete over the `Categories` table, whose names the
    handlers keep free of duplicates under the catalogue collation. */
module Categories {
  import opened Common
  import opened JsText
  import opened Tables
  import opened Sorting
  import opened Collations

  datatype Category = Category(id: nat, name: string, description: Option<string>, createdAt: int)

  const CategoryNameRequired: Error := Error(400, "Category name is required")
  const CategoryNameExists: Error := Error(409, "Category name already exists")
  const InvalidCategoryId: Error := Error(400, "Invalid category ID")
  const CategoryNotFound: Error := Error(404, "Category not found")
  const UpdateCategoryFailed: Error := Error(500, "Failed to update category")
  const DeleteCategoryFailed: Error := Error(500, "Failed to delete category")

  function CategoryId(x: Category): int { x.id }

  /** `!name || name.trim() === ''`: a missing, empty or whitespace-only name. */
  predicate Blank(name: Option<string>) {
    name.None? || Trim(name.value) == ""
  }

  /** `value || null` for an optional text field: the empty string is stored as NULL. */
  function OrNull(value: Option<string>): (r: Option<string>)
    ensures r.None? <==> value.None? || value.value == ""
    ensures r.Some? ==> r == value
  {
    if value.Some? && value.value != "" then value else None
  }

  // ---------------------------------------------------------------------
  // The listing
  // ---------------------------------------------------------------------

  /** `WHERE name COLLATE ... LIKE N'%' + @search + N'%'`, present only for a
      non-empty search. */
  function MatchesSearch(names: Collation, search: string): Category -> bool {
    (x: Category) => search == "" || Like(names, x.name, search)
  }

  /** `ORDER BY created_at DESC` */
  function NewerFirst(a: Category, b: Category): bool {
    a.createdAt >= b.createdAt
  }

  lemma NewerFirstIsTotalPreorder()
    ensures TotalPreorder(NewerFirst)
  {
  }

  /** `getCategories`: the search is trimmed; a blank search selects every
      row, any other selects the rows whose name contains it under the
      collation; the rows come newest first. */
  function ListCategories(categories: seq<Category>, names: Collation, search: Option<string>): (r: seq<Category>)
    ensures Sorted(r, NewerFirst)
    ensures multiset(r) == multiset(Filter(categories, MatchesSearch(names, Trim(search.GetOr("")))))
    ensures forall x :: x in r <==>
      x in categories && (Trim(search.GetOr("")) == "" || Like(names, x.name, Trim(search.GetOr(""))))
  {
    var s := Trim(search.GetOr(""));
    NewerFirstIsTotalPreorder();
    var selected := Filter(categories, MatchesSearch(names, s));
    var r := InsertionSort(selected, NewerFirst);
    assert forall x :: x in r <==> x in multiset(r);
    assert forall x :: x in selected <==> x in multiset(selected);
    r
  }

  /** With a blank search the listing is the whole table, reordered. */
  lemma BlankSearchListsAll(categories: seq<Category>, names: Collation, search: Option<string>)
    requires Trim(search.GetOr("")) == ""
    ensures multiset(ListCategories(categories, names, search)) == multiset(categories)
  {
    var f := Filter(categories, MatchesSearch(names, ""));
    assert |f| == |categories|;
    FilterAll(categories, MatchesSearch(names, ""));
  }

  // ---------------------------------------------------------------------
  // Duplicate names
  // ---------------------------------------------------------------------

  /** No two rows have names equal under the collation. */
  ghost predicate UniqueNames(categories: seq<Category>, names: Collation) {
    forall a, b | a in categories && b in categories && Equal(names, a.name, b.name) :: a == b
  }

  /** `SELECT id FROM Categories WHERE id != @id AND name COLLATE ... = @name`
      returns a row; `createCategory` runs it with no id to exclude. */
  predicate Clash(categories: seq<Category>, names: Collation, exclude: Option<int>, name: string) {
    exists x | x in categories :: Some(x.id) != exclude && Equal(names, x.name, name)
  }

  /** A category may be renamed to any form of its own name. */
  lemma RenameToOwnName(categories: seq<Category>, names: Collation, x: Category, name: string)
    requires UniqueNames(categories, names)
    requires Ascending(categories, CategoryId)
    requires x in categories && Equal(names, x.name, name)
    ensures !Clash(categories, names, Some(x.id), name)
  {
    forall y | y in categories && Equal(names, y.name, name) ensures y.id == x.id {
      assert y == x;
    }
  }

  /** Appending a row with the next id and a name that clashes with no row
      keeps the ids ascending and below the next id, and the names unique. */
  lemma InsertKeepsNamesUnique(categories: seq<Category>, names: Collation, next: int, x: Category)
    requires Ascending(categories, CategoryId) && Below(categories, CategoryId, next)
    requires UniqueNames(categories, names)
    requires !Clash(categories, names, None, x.name) && x.id == next
    ensures var after := categories + [x];
      && Ascending(after, CategoryId) && Below(after, CategoryId, next + 1)
      && UniqueNames(after, names)
  {
    var after := categories + [x];
    forall i, j | 0 <= i < j < |after| ensures CategoryId(after[i]) < CategoryId(after[j]) {
      assert after[i] == categories[i];
      if j < |categories| { assert after[j] == categories[j]; }
    }
    forall i | 0 <= i < |after| ensures CategoryId(after[i]) < next + 1 {
      if i < |categories| { assert after[i] == categories[i]; }
    }
    forall a, b | a in after && b in after && Equal(names, a.name, b.name) ensures a == b {
      assert a in categories || a == x;
      assert b in categories || b == x;
    }
  }

  /** Renaming row `id` to a name that clashes with no other row keeps the
      names unique. */
  lemma RenameKeepsNamesUnique(categories: seq<Category>, names: Collation, next: int,
                                id: int, name: string, description: Option<string>)
    requires UniqueNames(categories, names)
    requires Ascending(categories, CategoryId) && Below(categories, CategoryId, next)
    requires !Clash(categories, names, Some(id), name)
    ensures var after := Replace(categories, HasId(id), Renamed(name, description));
            UniqueNames(after, names) && Ascending(after, CategoryId) && Below(after, CategoryId, next)
  {
    var after := Replace(categories, HasId(id), Renamed(name, description));
    forall i | 0 <= i < |after| ensures CategoryId(after[i]) < next {
      assert after[i].id == categories[i].id;
    }
    forall i, j | 0 <= i < j < |after| ensures CategoryId(after[i]) < CategoryId(after[j]) {
      assert after[i].id == categories[i].id && after[j].id == categories[j].id;
    }
    forall a, b | a in after && b in after && Equal(names, a.name, b.name) ensures a == b {
      var i :| 0 <= i < |after| && after[i] == a;
      var j :| 0 <= j < |after| && after[j] == b;
      assert categories[i] in categories && categories[j] in categories;
      if categories[i].id == id && categories[j].id == id {
        assert i == j;
      }
    }
  }

  function HasId(id: int): Category -> bool {
    (x: Category) => x.id == id
  }

  function NotId(id: int): Category -> bool {
    (x: Category) => x.id != id
  }

  /** `SET name = @name, description = @description` */
  function Renamed(name: string, description: Option<string>): Category -> Category {
    (x: Category) => x.(name := name, description := description)
  }

  /** `SELECT id FROM Categories WHERE id = @id` returns a row. */
  predicate Exists(categories: seq<Category>, id: int) {
    exists x | x in categories :: x.id == id
  }

  // ---------------------------------------------------------------------
  // The table
  // ---------------------------------------------------------------------

  class CategoryTable {
    /** `Khmer_100_CI_AI`, the collation names are compared and searched under. */
    const names: Collation
    var categories: seq<Category>
    var nextId: nat

    ghost predicate Valid()
      reads this
    {
      && Ascending(categories, CategoryId) && Below(categories, CategoryId, nextId)
      && UniqueNames(categories, names)
    }

    constructor (names: Collation)
      ensures Valid() && this.names == names && categories == []
    {
      this.names := names;
      categories := [];
      nextId := 0;
    }

    /** `createCategory`: a blank name is 400, a name equal under the
        collation to an existing one is 409, both without changes; otherwise
        one row with the trimmed name and the description (or NULL) is
        appended. `now` is the database clock the row's `created_at`
        defaults to. */
    method Create(name: Option<string>, description: Option<string>, now: int) returns (r: Result<()>)
      requires Valid()
      modifies this
      ensures Valid()
      ensures Blank(name) ==> r == Err(CategoryNameRequired)
      ensures !Blank(name) && Clash(old(categories), names, None, Trim(name.value)) ==> r == Err(CategoryNameExists)
      ensures r.Ok? <==> !Blank(name) && !Clash(old(categories), names, None, Trim(name.value))
      ensures r.Err? ==> categories == old(categories) && nextId == old(nextId)
      ensures r.Ok? ==>
        && categories == old(categories) + [Category(old(nextId), Trim(name.value), OrNull(description), now)]
        && nextId == old(nextId) + 1
    {
      if Blank(name) {
        return Err(CategoryNameRequired);
      }
      var trimmed := Trim(name.value);
      if Clash(categories, names, None, trimmed) {
        return Err(CategoryNameExists);
      }
      var x := Category(nextId, trimmed, OrNull(description), now);
      InsertKeepsNamesUnique(categories, names, nextId, x);
      categories, nextId := categories + [x], nextId + 1;
      r := Ok(());
    }

    /** `updateCategory`: the errors come in the order invalid id (400),
        blank name (400), an id out of the `sql.Int` range (500), missing
        row (404), a name equal to another row's (409), each without
        changes; the duplicate check ignores the row itself. A success
        renames row `id` and sets its description, and changes nothing else. */
    method Update(id: Option<int>, name: Option<string>, description: Option<string>) returns (r: Result<()>)
      requires Valid()
      modifies this
      ensures Valid()
      ensures nextId == old(nextId)
      ensures id.None? ==> r == Err(InvalidCategoryId)
      ensures id.Some? && Blank(name) ==> r == Err(CategoryNameRequired)
      ensures id.Some? && !Blank(name) && !IsInt32(id.value) ==> r == Err(UpdateCategoryFailed)
      ensures id.Some? && !Blank(name) && IsInt32(id.value) && !Exists(old(categories), id.value) ==>
        r == Err(CategoryNotFound)
      ensures id.Some? && !Blank(name) && IsInt32(id.value) && Exists(old(categories), id.value)
              && Clash(old(categories), names, Some(id.value), Trim(name.value)) ==>
        r == Err(CategoryNameExists)
      ensures r.Ok? <==>
        && id.Some? && !Blank(name) && IsInt32(id.value) && Exists(old(categories), id.value)
        && !Clash(old(categories), names, Some(id.value), Trim(name.value))
      ensures r.Err? ==> categories == old(categories)
      ensures r.Ok? ==>
        categories == Replace(old(categories), HasId(id.value), Renamed(Trim(name.value), OrNull(description)))
    {
      if id.None? {
        return Err(InvalidCategoryId);
      }
      if Blank(name) {
        return Err(CategoryNameRequired);
      }
      if !IsInt32(id.value) {
        return Err(UpdateCategoryFailed);
      }
      if !Exists(categories, id.value) {
        return Err(CategoryNotFound);
      }
      var key := id.value;
      var trimmed := Trim(name.value);
      if Clash(categories, names, Some(key), trimmed) {
        return Err(CategoryNameExists);
      }
      RenameKeepsNamesUnique(categories, names, nextId, key, trimmed, OrNull(description));
      categories := Replace(categories, HasId(key), Renamed(trimmed, OrNull(description)));
      r := Ok(());
    }

    /** `deleteCategory`: invalid id is 400, an id out of the `sql.Int`
        range is 500, a missing row is 404, each without changes; a success
        removes exactly row `id`. */
    method Delete(id: Option<int>) returns (r: Result<()>)
      requires Valid()
      modifies this
      ensures Valid()
      ensures nextId == old(nextId)
      ensures id.None? ==> r == Err(InvalidCategoryId)
      ensures id.Some? && !IsInt32(id.value) ==> r == Err(DeleteCategoryFailed)
      ensures id.Some? && IsInt32(id.value) && !Exists(old(categories), id.value) ==> r == Err(CategoryNotFound)
      ensures r.Ok? <==> id.Some? && IsInt32(id.value) && Exists(old(categories), id.value)
      ensures r.Err? ==> categories == old(categories)
      ensures r.Ok? ==> categories == Filter(old(categories), NotId(id.value))
      ensures r.Ok? ==> !Exists(categories, id.value) && |categories| == |old(categories)| - 1
    {
      if id.None? {
        return Err(InvalidCategoryId);
      }
      if !IsInt32(id.value) {
        return Err(DeleteCategoryFailed);
      }
      if !Exists(categories, id.value) {
        return Err(CategoryNotFound);
      }
      var key := id.value;
      DeleteOne(categories, key);
      FilterAscending(categories, NotId(key), CategoryId);
      FilterBelow(categories, NotId(key), CategoryId, nextId);
      categories := Filter(categories, NotId(key));
      r := Ok(());
    }
  }

  /** In a table whose ids ascend, deleting an existing id removes exactly one row. */
  lemma {:induction false} DeleteOne(categories: seq<Category>, id: int)
    requires Ascending(categories, CategoryId)
    requires Exists(categories, id)
    ensures |Filter(categories, NotId(id))| == |categories| - 1
  {
    if categories[0].id == id {
      assert forall x | x in categories[1..] :: x.id != id by {
        forall x | x in categories[1..] ensures x.id != id {
          var j :| 0 <= j < |categories[1..]| && categories[1..][j] == x;
          assert categories[j + 1] == x;
        }
      }
      FilterAll(categories[1..], NotId(id));
    } else {
      var x :| x in categories && x.id == id;
      assert x in categories[1..];
      DeleteOne(categories[1..], id);
    }
  }
}
