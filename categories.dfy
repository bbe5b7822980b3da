/**
 * The category resolvers (src/category/category.resolvers.ts): the root
 * listing with one level of subcategories, the add and edit mutations
 * scoped by parent, and the delete that archives a category with its
 * children unless exercises still use them.
 */
module Categories {
  import opened Wrappers
  import opened Text
  import opened Ids
  import opened Store
  import opened Guards
  import opened Sorting
  import opened Uniqueness
  import opened CategoryUtils
  import ExerciseUtils

  const HasExercises := "Não é possível eliminar categoria com exercícios associados"

  // ---------------------------------------------------------------------
  // `categories`

  /** The `WHERE` of the listing: a root category of the caller, not archived. */
  function IsRoot(userId: nat): Row<CategoryData> -> bool
  {
    (c: Row<CategoryData>) => c.data.parent.None? && c.data.createdBy == userId && c.data.archivedAt.None?
  }

  /** `ORDER BY c.updated_at DESC, c.name ASC`. */
  predicate RootLe(a: Row<CategoryData>, b: Row<CategoryData>)
  {
    a.data.updatedAt > b.data.updatedAt
    || (a.data.updatedAt == b.data.updatedAt && LexLe(a.data.name, b.data.name))
  }

  lemma RootLeTotal()
    ensures TotalPreorder(RootLe)
  {
    forall a: Row<CategoryData>, b: Row<CategoryData>
      ensures RootLe(a, b) || RootLe(b, a)
    {
      LexLeTotal(a.data.name, b.data.name);
    }
    forall a: Row<CategoryData>, b: Row<CategoryData>, c: Row<CategoryData> | RootLe(a, b) && RootLe(b, c)
      ensures RootLe(a, c)
    {
      if a.data.updatedAt == b.data.updatedAt == c.data.updatedAt {
        LexLeTransitive(a.data.name, b.data.name, c.data.name);
      }
    }
  }

  /** The caller's root categories in the listing's order: every one of them, once, most recently updated first. */
  function SortedRoots(rows: seq<Row<CategoryData>>, userId: nat): (r: seq<Row<CategoryData>>)
    ensures multiset(r) == multiset(Select(rows, IsRoot(userId)))
    ensures Sorted(r, RootLe)
  {
    var roots := Select(rows, IsRoot(userId));
    SortByPermutes(roots, RootLe);
    RootLeTotal();
    SortBySorted(roots, RootLe);
    SortBy(roots, RootLe)
  }

  /** Each root with its children attached. */
  function Attach(roots: seq<Row<CategoryData>>, rows: seq<Row<CategoryData>>, userId: nat): (r: seq<CategoryNode>)
    ensures |r| == |roots|
    ensures forall i :: 0 <= i < |r| ==> r[i] == MapCategoryRow(roots[i], Children(rows, roots[i].id, userId))
  {
    seq(|roots|, i requires 0 <= i < |roots| => MapCategoryRow(roots[i], Children(rows, roots[i].id, userId)))
  }

  /** What the listing answers: each sorted root with its children attached. */
  function Listing(rows: seq<Row<CategoryData>>, userId: nat): seq<CategoryNode>
  {
    Attach(SortedRoots(rows, userId), rows, userId)
  }

  /** `subcategoriesMap[id] || []`. */
  function Lookup(subcategories: map<nat, seq<CategoryNode>>, id: nat): seq<CategoryNode>
  {
    if id in subcategories then subcategories[id] else []
  }

  /** `rootCategories.map(…)`: each root with what the gathered map holds for it. */
  function AttachFound(roots: seq<Row<CategoryData>>, subcategories: map<nat, seq<CategoryNode>>): seq<CategoryNode>
  {
    seq(|roots|, i requires 0 <= i < |roots| => MapCategoryRow(roots[i], Lookup(subcategories, roots[i].id)))
  }

  /** The gathered map, read root by root, gives each root its children. */
  lemma LookupChildren(rows: seq<Row<CategoryData>>, roots: seq<Row<CategoryData>>, ids: seq<Option<nat>>, userId: nat,
                       subcategories: map<nat, seq<CategoryNode>>)
    requires |ids| == |roots| && forall i :: 0 <= i < |roots| ==> ids[i] == Some(roots[i].id)
    requires HoldsChildren(subcategories, rows, ids, userId)
    ensures AttachFound(roots, subcategories) == Attach(roots, rows, userId)
  {
    forall i | 0 <= i < |roots|
      ensures Lookup(subcategories, roots[i].id) == Children(rows, roots[i].id, userId)
    {
      assert ids[i] == Some(roots[i].id);
    }
  }

  /**
   * `categories`: the caller's root categories, newest update first and then
   * by name, each carrying its subcategories (or `[]`), gathered for all
   * roots at once.
   */
  method ListCategories(db: Database, ctx: Context) returns (r: Result<seq<CategoryNode>>)
    ensures ctx.user.None? ==> r == Err(Unauthorized)
    ensures ctx.user.Some? ==> r == Ok(Listing(db.categories.rows, ctx.user.value))
  {
    var auth := RequireAuth(ctx);
    if auth.Err? {
      return Err(auth.msg);
    }
    var rows := db.categories.rows;
    var roots := SortedRoots(rows, auth.value);
    var ids := seq(|roots|, i requires 0 <= i < |roots| => Some(roots[i].id));
    var subcategories := GetSubcategories(rows, ids, auth.value);
    LookupChildren(rows, roots, ids, auth.value, subcategories);
    return Ok(AttachFound(roots, subcategories));
  }

  /** The sorted roots are exactly the caller's live root categories. */
  lemma RootsMeaning(rows: seq<Row<CategoryData>>, userId: nat)
    ensures |SortedRoots(rows, userId)| == |Select(rows, IsRoot(userId))|
    ensures forall c :: c in SortedRoots(rows, userId) <==> c in rows && IsRoot(userId)(c)
  {
    var roots := SortedRoots(rows, userId);
    var selected := Select(rows, IsRoot(userId));
    assert |multiset(roots)| == |multiset(selected)|;
    forall c
      ensures c in roots <==> c in rows && IsRoot(userId)(c)
    {
      assert c in roots <==> c in multiset(roots);
      assert c in selected <==> c in multiset(selected);
      if c in rows && IsRoot(userId)(c) {
        var k :| 0 <= k < |rows| && rows[k] == c;
      }
    }
  }

  /** Every live root category of the caller is listed, with exactly its own live children, and nothing else is. */
  lemma ListingComplete(rows: seq<Row<CategoryData>>, userId: nat)
    ensures |Listing(rows, userId)| == |Select(rows, IsRoot(userId))|
    ensures forall c :: c in rows && IsRoot(userId)(c) ==>
      MapCategoryRow(c, Children(rows, c.id, userId)) in Listing(rows, userId)
  {
    var roots := SortedRoots(rows, userId);
    RootsMeaning(rows, userId);
    forall c | c in rows && IsRoot(userId)(c)
      ensures MapCategoryRow(c, Children(rows, c.id, userId)) in Listing(rows, userId)
    {
      var j :| 0 <= j < |roots| && roots[j] == c;
      assert Listing(rows, userId)[j] == MapCategoryRow(c, Children(rows, c.id, userId));
    }
  }

  /** Every listed node is a live root category of the caller with its own live children. */
  lemma ListingSound(rows: seq<Row<CategoryData>>, userId: nat)
    ensures forall i :: 0 <= i < |Listing(rows, userId)| ==>
      exists c :: c in rows && IsRoot(userId)(c) && Listing(rows, userId)[i] == MapCategoryRow(c, Children(rows, c.id, userId))
  {
    var roots := SortedRoots(rows, userId);
    RootsMeaning(rows, userId);
    forall i | 0 <= i < |Listing(rows, userId)|
      ensures exists c :: c in rows && IsRoot(userId)(c) && Listing(rows, userId)[i] == MapCategoryRow(c, Children(rows, c.id, userId))
    {
      assert roots[i] in roots;
    }
  }

  /** The listing runs from the most recently updated root down, by name among equal times. */
  lemma ListingOrdered(rows: seq<Row<CategoryData>>, userId: nat)
    ensures forall i, j :: 0 <= i < j < |Listing(rows, userId)| ==>
      var a := Listing(rows, userId)[i];
      var b := Listing(rows, userId)[j];
      a.updatedAt > b.updatedAt || (a.updatedAt == b.updatedAt && LexLe(a.name, b.name))
  {
    var roots := SortedRoots(rows, userId);
    var l := Listing(rows, userId);
    forall i, j | 0 <= i < j < |l|
      ensures l[i].updatedAt > l[j].updatedAt || (l[i].updatedAt == l[j].updatedAt && LexLe(l[i].name, l[j].name))
    {
      assert RootLe(roots[i], roots[j]);
    }
  }

  // ---------------------------------------------------------------------
  // `addCategory`

  /**
   * `addCategory(name, parent_category)`: the duplication check in the
   * decoded parent's scope, then the insert with a falsy parent stored as
   * NULL. Whether the parent exists, is the caller's or is itself a root is
   * not checked.
   */
  method AddCategory(db: Database, ctx: Context, name: string, parentCategory: Option<string>, now: Time)
    returns (r: Result<CategoryNode>)
    requires db.CatalogueValid()
    modifies db.categories
    ensures db.CatalogueValid()
    ensures ctx.user.None? ==> r == Err(Unauthorized) && db.categories.rows == old(db.categories.rows)
    ensures ctx.user.Some? ==>
      var parent := DecodeId(Category, parentCategory);
      var dup := CheckDuplication(old(db.categories.rows), name, parent, ctx.user.value, None);
      (dup.Err? ==> r == Err(dup.msg) && db.categories.rows == old(db.categories.rows))
      && (dup.Ok? ==>
            var c := Row(old(db.categories.nextId), CategoryData(name, BindTruthy(parent).value, ctx.user.value, None, now, now));
            r == Ok(MapCategoryRow(c, [])) && db.categories.rows == old(db.categories.rows) + [c])
    ensures UniqueBy(old(db.categories.rows), CategoryKey) ==> UniqueBy(db.categories.rows, CategoryKey)
  {
    var auth := RequireAuth(ctx);
    if auth.Err? {
      return Err(auth.msg);
    }
    var parent := DecodeId(Category, parentCategory);
    var dup := CheckDuplication(db.categories.rows, name, parent, auth.value, None);
    if dup.Err? {
      return Err(dup.msg);
    }
    ghost var before := db.categories.rows;
    var d := CategoryData(name, BindTruthy(parent).value, auth.value, None, now, now);
    var id := db.categories.Insert(d);
    if UniqueBy(before, CategoryKey) {
      AppendKeepsUnique(before, CategoryKey, Row(id, d));
    }
    return Ok(MapCategoryRow(Row(id, d), []));
  }

  // ---------------------------------------------------------------------
  // `editCategory`

  /** `SET name = $1, parent_category = $2, updated_at = NOW()`. */
  function Moved(name: string, parent: Option<nat>, now: Time): CategoryData -> CategoryData
  {
    (d: CategoryData) => d.(name := name, parent := parent, updatedAt := now)
  }

  /**
   * The checks `editCategory` makes before it writes: the caller, the
   * ownership guard, the duplication check in the new parent's scope with
   * the category itself excluded, and the binding of the new parent, which
   * the update passes as it is (an empty decoded parent passes the check as
   * the root level and then fails the update). `Ok((n, p))` is the category
   * and its new parent.
   */
  function EditTarget(rows: seq<Row<CategoryData>>, ctx: Context, id: string, name: string,
                      parentCategory: Option<string>): (r: Result<(nat, Option<nat>)>)
    ensures ctx.user.None? ==> r == Err(Unauthorized)
    ensures ctx.user.Some? ==>
      (r.Ok? <==>
        OwnedTarget(rows, CategoryOwner, DecodeId(Category, Some(id)), ctx.user.value, ErrorMessage).Ok?
        && CheckDuplication(rows, name, DecodeId(Category, parentCategory), ctx.user.value, DecodeId(Category, Some(id))).Ok?
        && BindOptInt(DecodeId(Category, parentCategory)).Ok?)
    ensures r.Ok? ==>
      ctx.user.Some?
      && DecodeId(Category, Some(id)).Some? && ParseNat(DecodeId(Category, Some(id)).value) == Some(r.value.0)
      && OwnedRowExists(rows, CategoryOwner, r.value.0, ctx.user.value)
      && BindOptInt(DecodeId(Category, parentCategory)) == Ok(r.value.1)
      && !Clashes(rows, CategoryKey, (ctx.user.value, name, r.value.1), Some(r.value.0))
    ensures r.Err? ==> r.msg in {Unauthorized, InvalidInteger, CategoryNotFound, CategoryExists}
  {
    if ctx.user.None? then Err(Unauthorized)
    else
      var numericId := DecodeId(Category, Some(id));
      match OwnedTarget(rows, CategoryOwner, numericId, ctx.user.value, ErrorMessage)
      case Err(m) => Err(m)
      case Ok(n) =>
        var parent := DecodeId(Category, parentCategory);
        match CheckDuplication(rows, name, parent, ctx.user.value, numericId)
        case Err(m) => Err(m)
        case Ok(_) =>
          match BindOptInt(parent)
          case Err(m) => Err(m)
          case Ok(p) => Ok((n, p))
  }

  lemma MoveKeepsUnique(rows: seq<Row<CategoryData>>, n: nat, userId: nat, name: string, parent: Option<nat>, now: Time)
    requires UniqueBy(rows, CategoryKey) && IdsAscending(rows)
    requires OwnedRowExists(rows, CategoryOwner, n, userId)
    requires !Clashes(rows, CategoryKey, (userId, name, parent), Some(n))
    ensures UniqueBy(Updated(rows, IdIs(n), Moved(name, parent, now)), CategoryKey)
  {
    var g := Moved(name, parent, now);
    forall i | 0 <= i < |rows| && IdIs(n)(rows[i]) && CategoryKey(g(rows[i].data)).Some?
      ensures !Clashes(rows, CategoryKey, CategoryKey(g(rows[i].data)).value, Some(n))
    {
      var k :| 0 <= k < |rows| && rows[k].id == n && CategoryOwner(rows[k].data) == Some(userId);
      assert CategoryKey(g(rows[i].data)).value == (userId, name, parent);
    }
    UpdateOneKeepsUnique(rows, CategoryKey, IdIs(n), n, g);
  }

  /** The `UPDATE … RETURNING *` of `editCategory`, on a category of the caller that passed the checks. */
  method MoveCategory(categories: Table<CategoryData>, userId: nat, n: nat, name: string, parent: Option<nat>, now: Time)
    returns (c: Row<CategoryData>)
    requires categories.Valid()
    requires OwnedRowExists(categories.rows, CategoryOwner, n, userId)
    requires !Clashes(categories.rows, CategoryKey, (userId, name, parent), Some(n))
    modifies categories
    ensures categories.Valid()
    ensures categories.rows == Updated(old(categories.rows), IdIs(n), Moved(name, parent, now))
    ensures c in categories.rows && c.id == n && c.data.name == name && c.data.parent == parent && c.data.updatedAt == now
    ensures UniqueBy(old(categories.rows), CategoryKey) ==> UniqueBy(categories.rows, CategoryKey)
  {
    if UniqueBy(categories.rows, CategoryKey) {
      MoveKeepsUnique(categories.rows, n, userId, name, parent, now);
    }
    ghost var w := UpdatedReadBack(categories.rows, n, Moved(name, parent, now));
    categories.UpdateWhere(IdIs(n), Moved(name, parent, now));
    var returned := Select(categories.rows, IdIs(n));
    c := returned[0];
  }

  /**
   * `editCategory(id, name, parent_category)`: after the checks, the one
   * row is renamed and moved, and comes back without subcategories. A
   * category may be made its own parent, or a child of a child.
   */
  method EditCategory(db: Database, ctx: Context, id: string, name: string, parentCategory: Option<string>, now: Time)
    returns (r: Result<CategoryNode>)
    requires db.CatalogueValid()
    modifies db.categories
    ensures db.CatalogueValid()
    ensures EditTarget(old(db.categories.rows), ctx, id, name, parentCategory).Err? ==>
      r == Err(EditTarget(old(db.categories.rows), ctx, id, name, parentCategory).msg)
      && db.categories.rows == old(db.categories.rows)
    ensures EditTarget(old(db.categories.rows), ctx, id, name, parentCategory).Ok? ==>
      var (n, p) := EditTarget(old(db.categories.rows), ctx, id, name, parentCategory).value;
      db.categories.rows == Updated(old(db.categories.rows), IdIs(n), Moved(name, p, now))
      && r.Ok? && exists c :: c in db.categories.rows && c.id == n && c.data.name == name && c.data.parent == p
                              && r.value == MapCategoryRow(c, [])
    ensures UniqueBy(old(db.categories.rows), CategoryKey) ==> UniqueBy(db.categories.rows, CategoryKey)
  {
    var target := EditTarget(db.categories.rows, ctx, id, name, parentCategory);
    if target.Err? {
      return Err(target.msg);
    }
    var (n, p) := target.value;
    var c := MoveCategory(db.categories, ctx.user.value, n, name, p, now);
    return Ok(MapCategoryRow(c, []));
  }

  // ---------------------------------------------------------------------
  // `deleteCategory`

  /** `SET archived_at = CURRENT_TIMESTAMP`. */
  function ArchiveCategory(now: Time): CategoryData -> CategoryData
  {
    (d: CategoryData) => d.(archivedAt := Some(now))
  }

  /** `WHERE parent_category = $1`: every child, whoever owns it and whether archived or not. */
  function ParentIs(n: nat): Row<CategoryData> -> bool
  {
    (c: Row<CategoryData>) => c.data.parent == Some(n)
  }

  /** `decodeId(CATEGORY, item.id)` over the gathered subcategories, as bound to `int[]`. */
  function DecodedIds(nodes: seq<CategoryNode>): (r: seq<Option<nat>>)
    ensures |r| == |nodes|
    ensures forall i :: 0 <= i < |nodes| ==> r[i] == ParseRowId(Category, nodes[i].id)
  {
    seq(|nodes|, i requires 0 <= i < |nodes| => ParseRowId(Category, nodes[i].id))
  }

  /** The categories whose exercises block the delete: the category and its children. */
  function Family(rows: seq<Row<CategoryData>>, n: nat, userId: nat): seq<Option<nat>>
  {
    [Some(n)] + DecodedIds(Children(rows, n, userId))
  }

  /** The decoded ids of the children are the children's own ids. */
  lemma DecodedChildren(rows: seq<Row<CategoryData>>, n: nat, userId: nat)
    ensures |DecodedIds(Children(rows, n, userId))| == |Select(rows, ChildOf(n, userId))|
    ensures forall i :: 0 <= i < |Select(rows, ChildOf(n, userId))| ==>
      DecodedIds(Children(rows, n, userId))[i] == Some(Select(rows, ChildOf(n, userId))[i].id)
  {
  }

  /** The family is the category followed by the ids of its children. */
  lemma FamilyHasChildren(rows: seq<Row<CategoryData>>, n: nat, userId: nat, c: nat)
    ensures Some(c) in Family(rows, n, userId) <==> c == n || Some(c) in DecodedIds(Children(rows, n, userId))
  {
  }

  /**
   * `[numericId, ...subcategoryIds]`: the category and the decoded ids of the
   * subcategories gathered for it. The source drops repeated ids with a
   * `Set`; the ids of distinct rows are distinct already.
   */
  method GatherFamily(categories: seq<Row<CategoryData>>, n: nat, userId: nat) returns (family: seq<Option<nat>>)
    ensures family == Family(categories, n, userId)
    ensures |family| > 1 <==> Children(categories, n, userId) != []
  {
    var subcategories := GetSubcategories(categories, [Some(n)], userId);
    var kids := if n in subcategories then subcategories[n] else [];
    assert kids == Children(categories, n, userId);
    family := [Some(n)] + DecodedIds(kids);
  }

  /** Category `c` is `n` itself or a non-archived child of `n` of the caller. */
  predicate InFamily(rows: seq<Row<CategoryData>>, n: nat, userId: nat, c: nat)
  {
    c == n || exists k :: 0 <= k < |rows| && ChildOf(n, userId)(rows[k]) && rows[k].id == c
  }

  /** The family holds exactly the category and the ids of its non-archived children of the caller. */
  lemma FamilyMeaning(rows: seq<Row<CategoryData>>, n: nat, userId: nat, c: nat)
    ensures Some(c) in Family(rows, n, userId) <==> InFamily(rows, n, userId, c)
  {
    FamilyHasChildren(rows, n, userId, c);
    if Some(c) in DecodedIds(Children(rows, n, userId)) {
      ChildIdsSound(rows, n, userId, c);
    }
    if k :| 0 <= k < |rows| && ChildOf(n, userId)(rows[k]) && rows[k].id == c {
      ChildIdsComplete(rows, n, userId, k);
    }
  }

  lemma ChildIdsSound(rows: seq<Row<CategoryData>>, n: nat, userId: nat, c: nat)
    requires Some(c) in DecodedIds(Children(rows, n, userId))
    ensures exists k :: 0 <= k < |rows| && ChildOf(n, userId)(rows[k]) && rows[k].id == c
  {
    var kids := Select(rows, ChildOf(n, userId));
    var ids := DecodedIds(Children(rows, n, userId));
    DecodedChildren(rows, n, userId);
    var j :| 0 <= j < |ids| && ids[j] == Some(c);
    assert kids[j] in rows && ChildOf(n, userId)(kids[j]);
    var k :| 0 <= k < |rows| && rows[k] == kids[j];
  }

  lemma ChildIdsComplete(rows: seq<Row<CategoryData>>, n: nat, userId: nat, k: nat)
    requires k < |rows| && ChildOf(n, userId)(rows[k])
    ensures Some(rows[k].id) in DecodedIds(Children(rows, n, userId))
  {
    var kids := Select(rows, ChildOf(n, userId));
    DecodedChildren(rows, n, userId);
    assert rows[k] in kids;
    var j :| 0 <= j < |kids| && kids[j] == rows[k];
    assert DecodedIds(Children(rows, n, userId))[j] == Some(rows[k].id);
  }

  /** The exercises that block deleting `n`: the caller's, archived or not, in `n` or one of its children. */
  function Blocking(categories: seq<Row<CategoryData>>, exercises: seq<Row<ExerciseData>>, n: nat, userId: nat)
    : seq<Row<ExerciseData>>
  {
    ExerciseUtils.CategoriesExercises(exercises, Family(categories, n, userId), userId)
  }

  /** A delete is blocked exactly when one of the caller's exercises sits in the category or in one of its children. */
  lemma BlockingMeaning(categories: seq<Row<CategoryData>>, exercises: seq<Row<ExerciseData>>, n: nat, userId: nat)
    ensures Blocking(categories, exercises, n, userId) != [] <==>
      exists e :: e in exercises && e.data.createdBy == userId && InFamily(categories, n, userId, e.data.category)
  {
    var b := Blocking(categories, exercises, n, userId);
    if b != [] {
      FamilyMeaning(categories, n, userId, b[0].data.category);
    }
    forall e | e in exercises && e.data.createdBy == userId && InFamily(categories, n, userId, e.data.category)
      ensures e in b
    {
      FamilyMeaning(categories, n, userId, e.data.category);
    }
  }

  /** The two `UPDATE`s of a delete that goes through: every child when there are live children of the caller, then the category. */
  function Cascaded(rows: seq<Row<CategoryData>>, n: nat, userId: nat, now: Time): seq<Row<CategoryData>>
  {
    ArchivedFamily(rows, n, Children(rows, n, userId) != [], now)
  }

  function ArchivedFamily(rows: seq<Row<CategoryData>>, n: nat, cascade: bool, now: Time): seq<Row<CategoryData>>
  {
    var children := if cascade then Updated(rows, ParentIs(n), ArchiveCategory(now)) else rows;
    Updated(children, IdIs(n), ArchiveCategory(now))
  }

  /** The queries before the delete: the blocking exercises, and whether the category has live children. */
  method FindBlocking(categories: seq<Row<CategoryData>>, exercises: seq<Row<ExerciseData>>, n: nat, userId: nat)
    returns (found: seq<Row<ExerciseData>>, cascade: bool)
    ensures found == Blocking(categories, exercises, n, userId)
    ensures cascade <==> Children(categories, n, userId) != []
  {
    var family := GatherFamily(categories, n, userId);
    found := ExerciseUtils.CategoriesExercises(exercises, family, userId);
    cascade := |family| > 1;
  }

  /** The archiving `UPDATE`s, which keep the live names of every scope unique. */
  method ArchiveFamily(categories: Table<CategoryData>, n: nat, cascade: bool, now: Time)
    requires categories.Valid()
    modifies categories
    ensures categories.Valid()
    ensures categories.rows == ArchivedFamily(old(categories.rows), n, cascade, now)
    ensures UniqueBy(old(categories.rows), CategoryKey) ==> UniqueBy(categories.rows, CategoryKey)
  {
    ghost var before := categories.rows;
    if cascade {
      categories.UpdateWhere(ParentIs(n), ArchiveCategory(now));
      if UniqueBy(before, CategoryKey) {
        ClearKeepsUnique(before, CategoryKey, ParentIs(n), ArchiveCategory(now));
      }
    }
    ghost var middle := categories.rows;
    categories.UpdateWhere(IdIs(n), ArchiveCategory(now));
    if UniqueBy(middle, CategoryKey) {
      ClearKeepsUnique(middle, CategoryKey, IdIs(n), ArchiveCategory(now));
    }
  }

  /**
   * `deleteCategory(id)`: after the ownership guard, the caller's
   * exercises in the category or its children block the delete; otherwise
   * the children and then the category are archived, and the input id is
   * returned. Only one level of descendants is considered.
   */
  method DeleteCategory(db: Database, ctx: Context, id: string, now: Time) returns (r: Result<string>)
    requires db.CatalogueValid()
    modifies db.categories
    ensures db.CatalogueValid()
    ensures ctx.user.None? ==> r == Err(Unauthorized) && db.categories.rows == old(db.categories.rows)
    ensures ctx.user.Some? ==>
      var target := OwnedTarget(old(db.categories.rows), CategoryOwner, DecodeId(Category, Some(id)), ctx.user.value, ErrorMessage);
      (target.Err? ==> r == Err(target.msg) && db.categories.rows == old(db.categories.rows))
      && (target.Ok? && Blocking(old(db.categories.rows), db.exercises.rows, target.value, ctx.user.value) != [] ==>
            r == Err(HasExercises) && db.categories.rows == old(db.categories.rows))
      && (target.Ok? && Blocking(old(db.categories.rows), db.exercises.rows, target.value, ctx.user.value) == [] ==>
            r == Ok(id) && db.categories.rows == Cascaded(old(db.categories.rows), target.value, ctx.user.value, now))
    ensures UniqueBy(old(db.categories.rows), CategoryKey) ==> UniqueBy(db.categories.rows, CategoryKey)
  {
    var auth := RequireAuth(ctx);
    if auth.Err? {
      return Err(auth.msg);
    }
    var target := OwnedTarget(db.categories.rows, CategoryOwner, DecodeId(Category, Some(id)), auth.value, ErrorMessage);
    if target.Err? {
      return Err(target.msg);
    }
    var exercises, cascade := FindBlocking(db.categories.rows, db.exercises.rows, target.value, auth.value);
    if |exercises| > 0 {
      return Err(HasExercises);
    }
    ArchiveFamily(db.categories, target.value, cascade, now);
    return Ok(id);
  }

  /**
   * After a delete the category is archived, the caller has no live child
   * of it left, and every row that is neither the category nor one of its
   * children is as it was.
   */
  lemma CascadeArchives(rows: seq<Row<CategoryData>>, n: nat, userId: nat, now: Time)
    ensures |Cascaded(rows, n, userId, now)| == |rows|
    ensures forall i :: 0 <= i < |rows| && rows[i].id == n ==> Cascaded(rows, n, userId, now)[i].data.archivedAt == Some(now)
    ensures Children(Cascaded(rows, n, userId, now), n, userId) == []
    ensures forall i :: 0 <= i < |rows| && rows[i].id != n && rows[i].data.parent != Some(n) ==>
      Cascaded(rows, n, userId, now)[i] == rows[i]
  {
    var after := Cascaded(rows, n, userId, now);
    forall i | 0 <= i < |after|
      ensures !ChildOf(n, userId)(after[i])
    {
    }
    SelectNone(after, ChildOf(n, userId));
  }
}
