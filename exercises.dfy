/**
 * The exercise resolvers (src/exercise/exercise.resolvers.ts): the keyset
 * listing narrowed to a category and its subcategories, the add, edit and
 * delete mutations behind the category and exercise guards, and the
 * `allCategories` field that resolves an exercise's category and parent.
 */
module Exercises {
  import opened Wrappers
  import opened Text
  import opened Ids
  import opened Store
  import opened Guards
  import opened Paging
  import opened Uniqueness
  import opened ExerciseUtils
  import CategoryUtils
  import Categories

  // ---------------------------------------------------------------------
  // `exercises`

  /**
   * The categories the listing is narrowed to: none for a falsy `category`;
   * otherwise the decoded category and its subcategories, or the error of
   * binding a decoded id that is not an integer.
   */
  function Scope(categories: seq<Row<CategoryData>>, category: Option<string>, userId: nat)
    : (r: Result<Option<seq<Option<nat>>>>)
    ensures r == Ok(None) <==> Falsy(category)
    ensures r.Err? <==> !Falsy(category) && BindInt(DecodeId(Category, category).value).Err?
    ensures r.Err? ==> r.msg == InvalidInteger
    ensures r.Ok? && r.value.Some? ==>
      r.value.value == Categories.Family(categories, BindInt(DecodeId(Category, category).value).value, userId)
  {
    if Falsy(category) then Ok(None)
    else
      match BindInt(DecodeId(Category, category).value)
      case Err(m) => Err(m)
      case Ok(c) => Ok(Some(Categories.Family(categories, c, userId)))
  }

  /**
   * The `WHERE` of the listing: the caller's exercises that are not
   * archived, whose category row exists (the inner join), in the scope when
   * there is one, and whose name matches the search term.
   */
  function Listed(categories: seq<Row<CategoryData>>, userId: nat, scope: Option<seq<Option<nat>>>,
                  searchTerm: Option<string>): Row<ExerciseData> -> bool
  {
    (e: Row<ExerciseData>) =>
      e.data.createdBy == userId && e.data.archivedAt.None? && RowExists(categories, e.data.category)
      && (scope.None? || Some(e.data.category) in scope.value) && MatchesSearch(e.data.name, searchTerm)
  }

  /** The scope of a `category` argument, computed with the subcategory lookup. */
  method FindScope(categories: seq<Row<CategoryData>>, category: Option<string>, userId: nat)
    returns (r: Result<Option<seq<Option<nat>>>>)
    ensures r == Scope(categories, category, userId)
  {
    if Falsy(category) {
      return Ok(None);
    }
    var numericCategory := BindInt(DecodeId(Category, category).value);
    if numericCategory.Err? {
      return Err(numericCategory.msg);
    }
    var family := Categories.GatherFamily(categories, numericCategory.value, userId);
    return Ok(Some(family));
  }

  /**
   * `exercises(first, after, category, searchTerm)`: a keyset page over the
   * listed exercises beyond the cursor, in id order, with the errors in the
   * order the source meets them: the caller, a negative `first`, the
   * category's id, the cursor's id.
   */
  method ListExercises(db: Database, ctx: Context, first: Option<int>, after: Option<Cursor>,
                       category: Option<string>, searchTerm: Option<string>)
    returns (r: Result<Connection<ExerciseNode>>)
    ensures ctx.user.None? ==> r == Err(Unauthorized)
    ensures ctx.user.Some? && PageSize(first) < 0 ==> r == Err(FirstNegative)
    ensures ctx.user.Some? && PageSize(first) >= 0 && Scope(db.categories.rows, category, ctx.user.value).Err? ==>
      r == Err(InvalidInteger)
    ensures r.Ok? <==>
      ctx.user.Some? && PageSize(first) >= 0 && Scope(db.categories.rows, category, ctx.user.value).Ok? && AfterId(after).Ok?
    ensures r.Err? ==> r.msg in {Unauthorized, FirstNegative, InvalidInteger}
    ensures r.Ok? ==>
      var scope := Scope(db.categories.rows, category, ctx.user.value).value;
      IsKeysetPage(r.value, AboveCursor(db.exercises.rows, Listed(db.categories.rows, ctx.user.value, scope, searchTerm),
                                        AfterId(after).value),
                   PageSize(first), MapExerciseRow)
  {
    var auth := RequireAuth(ctx);
    if auth.Err? {
      return Err(auth.msg);
    }
    var limit := PageSize(first);
    if limit < 0 {
      return Err(FirstNegative);
    }
    var scope := FindScope(db.categories.rows, category, auth.value);
    if scope.Err? {
      return Err(scope.msg);
    }
    var afterId := AfterId(after);
    if afterId.Err? {
      return Err(afterId.msg);
    }
    var matching := AboveCursor(db.exercises.rows, Listed(db.categories.rows, auth.value, scope.value, searchTerm),
                                afterId.value);
    var page := KeysetPage(matching, limit, MapExerciseRow);
    return Ok(page);
  }

  /**
   * Narrowed to a category, every exercise on a page is one of the caller's,
   * not archived, beyond the cursor, and sits in that category or in one of
   * its subcategories: a child of the caller's that is not archived.
   */
  lemma ListedExercisesInCategory(c: Connection<ExerciseNode>, categories: seq<Row<CategoryData>>,
                                  exercises: seq<Row<ExerciseData>>, userId: nat, n: nat,
                                  searchTerm: Option<string>, after: Option<nat>, first: int)
    requires IdsAscending(exercises)
    requires IsKeysetPage(c, AboveCursor(exercises, Listed(categories, userId, Some(Categories.Family(categories, n, userId)), searchTerm),
                                         after), first, MapExerciseRow)
    ensures forall i :: 0 <= i < |c.edges| ==>
      exists e :: e in exercises && e.data.createdBy == userId && e.data.archivedAt.None?
        && (after.None? || e.id > after.value)
        && Categories.InFamily(categories, n, userId, e.data.category)
        && c.edges[i] == Edge(CursorOf(e.id), MapExerciseRow(e))
  {
    var q := Listed(categories, userId, Some(Categories.Family(categories, n, userId)), searchTerm);
    PageFromRows(c, exercises, q, after, first, MapExerciseRow);
    forall i | 0 <= i < |c.edges|
      ensures exists e :: e in exercises && e.data.createdBy == userId && e.data.archivedAt.None?
                          && (after.None? || e.id > after.value)
                          && Categories.InFamily(categories, n, userId, e.data.category)
                          && c.edges[i] == Edge(CursorOf(e.id), MapExerciseRow(e))
    {
      var e :| e in exercises && q(e) && (after.None? || e.id > after.value) && c.edges[i] == Edge(CursorOf(e.id), MapExerciseRow(e));
      Categories.FamilyMeaning(categories, n, userId, e.data.category);
    }
  }

  // ---------------------------------------------------------------------
  // `addExercise`

  /** `!name || !category || !url`. */
  predicate WellFormed(name: Option<string>, category: Option<string>, url: Option<string>)
  {
    !Falsy(name) && !Falsy(category) && !Falsy(url)
  }

  /**
   * The checks `addExercise` makes before it writes: the caller, the
   * fields, the guard on the category (with the category's messages) and
   * the duplication check; `Ok(c)` is the category.
   */
  function AddTarget(categories: seq<Row<CategoryData>>, exercises: seq<Row<ExerciseData>>, ctx: Context,
                     name: Option<string>, category: Option<string>, url: Option<string>)
    : (r: Result<nat>)
    ensures ctx.user.None? ==> r == Err(Unauthorized)
    ensures ctx.user.Some? && !WellFormed(name, category, url) ==> r == Err(InvalidRequest)
    ensures r.Ok? <==>
      ctx.user.Some? && WellFormed(name, category, url)
      && OwnedTarget(categories, CategoryOwner, DecodeId(Category, category), ctx.user.value, CategoryUtils.ErrorMessage).Ok?
      && !Clashes(exercises, ExerciseKey, (ctx.user.value, name.value), None)
    ensures r.Ok? ==>
      OwnedRowExists(categories, CategoryOwner, r.value, ctx.user.value)
      && ParseNat(DecodeId(Category, category).value) == Some(r.value)
    ensures r.Err? ==> r.msg in {Unauthorized, InvalidRequest, InvalidInteger, CategoryUtils.CategoryNotFound, ExerciseExists}
  {
    if ctx.user.None? then Err(Unauthorized)
    else if !WellFormed(name, category, url) then Err(InvalidRequest)
    else
      match OwnedTarget(categories, CategoryOwner, DecodeId(Category, category), ctx.user.value, CategoryUtils.ErrorMessage)
      case Err(m) => Err(m)
      case Ok(c) =>
        match CheckDuplication(exercises, name.value, ctx.user.value, None)
        case Err(m) => Err(m)
        case Ok(_) => Ok(c)
  }

  /**
   * `addExercise(name, category, url)`: after the checks, a new exercise of
   * the caller in a category of theirs; the owner's live exercise names stay
   * unique. Whether the category is archived is not checked.
   */
  method AddExercise(db: Database, ctx: Context, name: Option<string>, category: Option<string>, url: Option<string>,
                     now: Time)
    returns (r: Result<ExerciseNode>)
    requires db.CatalogueValid()
    modifies db.exercises
    ensures db.CatalogueValid()
    ensures var target := AddTarget(old(db.categories.rows), old(db.exercises.rows), ctx, name, category, url);
      (target.Err? ==> r == Err(target.msg) && db.exercises.rows == old(db.exercises.rows))
      && (target.Ok? ==>
            var e := Row(old(db.exercises.nextId),
                         ExerciseData(name.value, url.value, target.value, ctx.user.value, None, now, now));
            db.exercises.rows == old(db.exercises.rows) + [e] && r == Ok(MapExerciseRow(e)))
    ensures UniqueBy(old(db.exercises.rows), ExerciseKey) ==> UniqueBy(db.exercises.rows, ExerciseKey)
  {
    var target := AddTarget(db.categories.rows, db.exercises.rows, ctx, name, category, url);
    if target.Err? {
      return Err(target.msg);
    }
    ghost var before := db.exercises.rows;
    var d := ExerciseData(name.value, url.value, target.value, ctx.user.value, None, now, now);
    var id := db.exercises.Insert(d);
    if UniqueBy(before, ExerciseKey) {
      AppendKeepsUnique(before, ExerciseKey, Row(id, d));
    }
    return Ok(MapExerciseRow(Row(id, d)));
  }

  // ---------------------------------------------------------------------
  // `editExercise`

  /**
   * The checks `editExercise` makes before it writes: the caller, the
   * fields, the guard on the new category, then the guard on the exercise,
   * then the duplication check with the exercise itself excluded.
   * `Ok((n, c))` is the exercise and its new category.
   */
  function EditTarget(categories: seq<Row<CategoryData>>, exercises: seq<Row<ExerciseData>>, ctx: Context, id: string,
                      name: Option<string>, category: Option<string>, url: Option<string>): (r: Result<(nat, nat)>)
    ensures ctx.user.None? ==> r == Err(Unauthorized)
    ensures ctx.user.Some? && !WellFormed(name, category, url) ==> r == Err(InvalidRequest)
    ensures r.Ok? <==>
      ctx.user.Some? && WellFormed(name, category, url)
      && OwnedTarget(categories, CategoryOwner, DecodeId(Category, category), ctx.user.value, CategoryUtils.ErrorMessage).Ok?
      && OwnedTarget(exercises, ExerciseOwner, DecodeId(Exercise, Some(id)), ctx.user.value, ErrorMessage).Ok?
      && !Clashes(exercises, ExerciseKey, (ctx.user.value, name.value),
                  Some(OwnedTarget(exercises, ExerciseOwner, DecodeId(Exercise, Some(id)), ctx.user.value, ErrorMessage).value))
    ensures r.Ok? ==>
      OwnedRowExists(categories, CategoryOwner, r.value.1, ctx.user.value)
      && OwnedRowExists(exercises, ExerciseOwner, r.value.0, ctx.user.value)
      && ParseNat(DecodeId(Exercise, Some(id)).value) == Some(r.value.0)
      && ParseNat(DecodeId(Category, category).value) == Some(r.value.1)
    ensures r.Err? ==>
      r.msg in {Unauthorized, InvalidRequest, InvalidInteger, CategoryUtils.CategoryNotFound, ExerciseNotFound, ExerciseExists}
  {
    if ctx.user.None? then Err(Unauthorized)
    else if !WellFormed(name, category, url) then Err(InvalidRequest)
    else
      var numericId := DecodeId(Exercise, Some(id));
      match OwnedTarget(categories, CategoryOwner, DecodeId(Category, category), ctx.user.value, CategoryUtils.ErrorMessage)
      case Err(m) => Err(m)
      case Ok(c) =>
        match OwnedTarget(exercises, ExerciseOwner, numericId, ctx.user.value, ErrorMessage)
        case Err(m) => Err(m)
        case Ok(n) =>
          match CheckDuplication(exercises, name.value, ctx.user.value, numericId)
          case Err(m) => Err(m)
          case Ok(_) => Ok((n, c))
  }

  /** `SET name = $1, category = $2, url = $3, updated_at = NOW()`. */
  function Revised(name: string, category: nat, url: string, now: Time): ExerciseData -> ExerciseData
  {
    (d: ExerciseData) => d.(name := name, category := category, url := url, updatedAt := now)
  }

  /** A rename that passed the duplication check with the exercise itself excluded keeps live names unique. */
  lemma ReviseKeepsUnique(rows: seq<Row<ExerciseData>>, n: nat, userId: nat, name: string, category: nat, url: string,
                          now: Time)
    requires UniqueBy(rows, ExerciseKey) && IdsAscending(rows)
    requires OwnedRowExists(rows, ExerciseOwner, n, userId)
    requires !Clashes(rows, ExerciseKey, (userId, name), Some(n))
    ensures UniqueBy(Updated(rows, IdIs(n), Revised(name, category, url, now)), ExerciseKey)
  {
    var g := Revised(name, category, url, now);
    forall i | 0 <= i < |rows| && IdIs(n)(rows[i]) && ExerciseKey(g(rows[i].data)).Some?
      ensures !Clashes(rows, ExerciseKey, ExerciseKey(g(rows[i].data)).value, Some(n))
    {
      var k :| 0 <= k < |rows| && rows[k].id == n && ExerciseOwner(rows[k].data) == Some(userId);
      assert ExerciseKey(g(rows[i].data)).value == (userId, name);
    }
    UpdateOneKeepsUnique(rows, ExerciseKey, IdIs(n), n, g);
  }

  /** The `UPDATE … RETURNING *` of `editExercise`, on an exercise of the caller that passed the checks. */
  method ReviseExercise(exercises: Table<ExerciseData>, userId: nat, n: nat, name: string, category: nat, url: string,
                        now: Time)
    returns (e: Row<ExerciseData>)
    requires exercises.Valid()
    requires OwnedRowExists(exercises.rows, ExerciseOwner, n, userId)
    requires !Clashes(exercises.rows, ExerciseKey, (userId, name), Some(n))
    modifies exercises
    ensures exercises.Valid()
    ensures exercises.rows == Updated(old(exercises.rows), IdIs(n), Revised(name, category, url, now))
    ensures e in exercises.rows && e.id == n && e.data.name == name && e.data.category == category
            && e.data.url == url && e.data.updatedAt == now
    ensures UniqueBy(old(exercises.rows), ExerciseKey) ==> UniqueBy(exercises.rows, ExerciseKey)
  {
    if UniqueBy(exercises.rows, ExerciseKey) {
      ReviseKeepsUnique(exercises.rows, n, userId, name, category, url, now);
    }
    ghost var w := UpdatedReadBack(exercises.rows, n, Revised(name, category, url, now));
    exercises.UpdateWhere(IdIs(n), Revised(name, category, url, now));
    var returned := Select(exercises.rows, IdIs(n));
    e := returned[0];
  }

  /**
   * `editExercise(id, name, category, url)`: after the checks, the one
   * exercise is renamed, moved and given its new url, and comes back mapped.
   */
  method EditExercise(db: Database, ctx: Context, id: string, name: Option<string>, category: Option<string>,
                      url: Option<string>, now: Time)
    returns (r: Result<ExerciseNode>)
    requires db.CatalogueValid()
    modifies db.exercises
    ensures db.CatalogueValid()
    ensures var target := EditTarget(old(db.categories.rows), old(db.exercises.rows), ctx, id, name, category, url);
      (target.Err? ==> r == Err(target.msg) && db.exercises.rows == old(db.exercises.rows))
      && (target.Ok? ==>
            var (n, c) := target.value;
            db.exercises.rows == Updated(old(db.exercises.rows), IdIs(n), Revised(name.value, c, url.value, now))
            && r.Ok? && exists e :: e in db.exercises.rows && e.id == n && e.data.name == name.value
                                    && e.data.category == c && e.data.url == url.value && r.value == MapExerciseRow(e))
    ensures UniqueBy(old(db.exercises.rows), ExerciseKey) ==> UniqueBy(db.exercises.rows, ExerciseKey)
  {
    var target := EditTarget(db.categories.rows, db.exercises.rows, ctx, id, name, category, url);
    if target.Err? {
      return Err(target.msg);
    }
    var (n, c) := target.value;
    var e := ReviseExercise(db.exercises, ctx.user.value, n, name.value, c, url.value, now);
    return Ok(MapExerciseRow(e));
  }

  // ---------------------------------------------------------------------
  // `deleteExercise`

  /** `SET archived_at = CURRENT_TIMESTAMP, updated_at = NOW()`. */
  function Archive(now: Time): ExerciseData -> ExerciseData
  {
    (d: ExerciseData) => d.(archivedAt := Some(now), updatedAt := now)
  }

  /**
   * `deleteExercise(id)`: archives the caller's exercise and answers with
   * the id it was given; the exercise stays in the table, and its name is
   * free again.
   */
  method DeleteExercise(db: Database, ctx: Context, id: string, now: Time) returns (r: Result<string>)
    requires db.CatalogueValid()
    modifies db.exercises
    ensures db.CatalogueValid()
    ensures ctx.user.None? ==> r == Err(Unauthorized) && db.exercises.rows == old(db.exercises.rows)
    ensures ctx.user.Some? ==>
      var target := OwnedTarget(old(db.exercises.rows), ExerciseOwner, DecodeId(Exercise, Some(id)), ctx.user.value, ErrorMessage);
      (target.Err? ==> r == Err(target.msg) && db.exercises.rows == old(db.exercises.rows))
      && (target.Ok? ==>
            r == Ok(id) && db.exercises.rows == Updated(old(db.exercises.rows), IdIs(target.value), Archive(now)))
    ensures UniqueBy(old(db.exercises.rows), ExerciseKey) ==> UniqueBy(db.exercises.rows, ExerciseKey)
  {
    var auth := RequireAuth(ctx);
    if auth.Err? {
      return Err(auth.msg);
    }
    var target := OwnedTarget(db.exercises.rows, ExerciseOwner, DecodeId(Exercise, Some(id)), auth.value, ErrorMessage);
    if target.Err? {
      return Err(target.msg);
    }
    ghost var before := db.exercises.rows;
    db.exercises.UpdateWhere(IdIs(target.value), Archive(now));
    if UniqueBy(before, ExerciseKey) {
      ClearKeepsUnique(before, ExerciseKey, IdIs(target.value), Archive(now));
    }
    return Ok(id);
  }

  /** An archived exercise leaves every listing: no page shows it again. */
  lemma ArchivedNotListed(rows: seq<Row<ExerciseData>>, n: nat, now: Time, categories: seq<Row<CategoryData>>,
                          userId: nat, scope: Option<seq<Option<nat>>>, searchTerm: Option<string>, after: Option<nat>)
    ensures forall e :: e in AboveCursor(Updated(rows, IdIs(n), Archive(now)), Listed(categories, userId, scope, searchTerm), after)
                        ==> e.id != n
  {
    var archived := Updated(rows, IdIs(n), Archive(now));
    var m := AboveCursor(archived, Listed(categories, userId, scope, searchTerm), after);
    forall e | e in m
      ensures e.id != n
    {
      var i :| 0 <= i < |m| && m[i] == e;
      var j :| 0 <= j < |archived| && archived[j] == e;
    }
  }

  // ---------------------------------------------------------------------
  // `Exercise.allCategories`

  /** What the resolver meets when the join finds no category for the exercise. */
  const NoCategoryCrash := "Cannot read properties of undefined (reading 'parent_category')"

  /** The first row with this id, if any. */
  function FindRow<F>(rows: seq<Row<F>>, id: nat): (r: Option<Row<F>>)
    ensures r.Some? ==> r.value in rows && r.value.id == id
    ensures r.None? <==> !RowExists(rows, id)
  {
    var found := Select(rows, (x: Row<F>) => x.id == id);
    if |found| > 0 then Some(found[0])
    else
      assert forall i :: 0 <= i < |rows| ==> rows[i].id != id;
      None
  }

  /**
   * The row `SELECT c.* FROM categories c LEFT JOIN exercises e ON
   * e.category = c.id WHERE e.id = $1` yields first: the category of
   * exercise `n`, when both rows exist.
   */
  function JoinedCategory(categories: seq<Row<CategoryData>>, exercises: seq<Row<ExerciseData>>, n: nat)
    : (r: Option<Row<CategoryData>>)
    requires IdsAscending(exercises)
    ensures r.Some? ==> r.value in categories && exists e :: e in exercises && e.id == n && e.data.category == r.value.id
    ensures r.None? <==> !exists e :: e in exercises && e.id == n && RowExists(categories, e.data.category)
  {
    match FindRow(exercises, n)
    case None => None
    case Some(e) =>
      forall x | x in exercises && x.id == n
        ensures x == e
      {
        SameIdSameRow(exercises, x, e);
      }
      FindRow(categories, e.data.category)
  }

  /** `[...(parentCat ? [parent] : []), cat]`: the category, preceded by its parent when it has one that exists. */
  function Lineage(categories: seq<Row<CategoryData>>, c: Row<CategoryData>): (r: seq<CategoryUtils.CategoryNode>)
    ensures 1 <= |r| <= 2 && r[|r| - 1] == CategoryUtils.MapCategoryRow(c, [])
    ensures |r| == 2 <==> CategoryUtils.HasParent(c.data) && RowExists(categories, c.data.parent.value)
    ensures |r| == 2 ==> exists p :: p in categories && Some(p.id) == c.data.parent && r[0] == CategoryUtils.MapCategoryRow(p, [])
  {
    var cat := CategoryUtils.MapCategoryRow(c, []);
    if CategoryUtils.HasParent(c.data) then
      match FindRow(categories, c.data.parent.value)
      case Some(p) => [CategoryUtils.MapCategoryRow(p, []), cat]
      case None => [cat]
    else [cat]
  }

  /**
   * `Exercise.allCategories`: the lineage of the exercise's category. It
   * checks no caller and no owner; an exercise id that is not an integer
   * fails the query, and an empty id, a missing exercise or a missing
   * category makes the resolver read a field of `undefined`.
   */
  function AllCategories(categories: seq<Row<CategoryData>>, exercises: seq<Row<ExerciseData>>, exerciseId: string)
    : (r: Result<seq<CategoryUtils.CategoryNode>>)
    requires IdsAscending(exercises)
    ensures r == Err(InvalidInteger) <==>
      DecodeId(Exercise, Some(exerciseId)).Some? && ParseNat(DecodeId(Exercise, Some(exerciseId)).value).None?
    ensures r == Err(NoCategoryCrash) <==>
      DecodeId(Exercise, Some(exerciseId)).None?
      || (ParseRowId(Exercise, exerciseId).Some? && JoinedCategory(categories, exercises, ParseRowId(Exercise, exerciseId).value).None?)
    ensures r.Ok? ==>
      ParseRowId(Exercise, exerciseId).Some? && JoinedCategory(categories, exercises, ParseRowId(Exercise, exerciseId).value).Some?
      && r.value == Lineage(categories, JoinedCategory(categories, exercises, ParseRowId(Exercise, exerciseId).value).value)
  {
    match BindOptInt(DecodeId(Exercise, Some(exerciseId)))
    case Err(m) => Err(m)
    case Ok(None) => Err(NoCategoryCrash)
    case Ok(Some(n)) =>
      match JoinedCategory(categories, exercises, n)
      case None => Err(NoCategoryCrash)
      case Some(c) => Ok(Lineage(categories, c))
  }

  /**
   * The field resolved on an exercise the API returned: its id reads back,
   * and the answer is the lineage of the exercise's own category.
   */
  lemma AllCategoriesOfMapped(categories: seq<Row<CategoryData>>, exercises: seq<Row<ExerciseData>>,
                              e: Row<ExerciseData>, c: Row<CategoryData>)
    requires IdsAscending(exercises) && IdsAscending(categories)
    requires e in exercises && c in categories && c.id == e.data.category
    ensures AllCategories(categories, exercises, MapExerciseRow(e).id) == Ok(Lineage(categories, c))
  {
    var id := MapExerciseRow(e).id;
    assert ParseRowId(Exercise, id) == Some(e.id);
    assert RowExists(categories, e.data.category) by {
      var k :| 0 <= k < |categories| && categories[k] == c;
    }
    var joined := JoinedCategory(categories, exercises, e.id);
    var x :| x in exercises && x.id == e.id && x.data.category == joined.value.id;
    SameIdSameRow(exercises, x, e);
    SameIdSameRow(categories, joined.value, c);
  }
}
