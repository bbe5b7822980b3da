/**
 * The exercise-variable resolvers
 * (src/exercise_categories/exercise_categories.resolvers.ts): the keyset
 * listing of the caller's variables and the add, edit and delete mutations.
 */
module Variables {
  import opened Wrappers
  import opened Text
  import opened Ids
  import opened Store
  import opened Guards
  import opened Paging
  import opened Uniqueness
  import opened VariableUtils

  // ---------------------------------------------------------------------
  // `exerciseVariables`

  /** The `WHERE` of the listing: the caller's variables that are not archived and match the search term. */
  function Listed(userId: nat, searchTerm: Option<string>): Row<VariableData> -> bool
  {
    (v: Row<VariableData>) =>
      v.data.createdBy == userId && v.data.archivedAt.None? && MatchesSearch(v.data.name, searchTerm)
  }

  /**
   * `exerciseVariables(first, after, searchTerm)`: a keyset page over the
   * listed variables beyond the cursor, in id order.
   */
  method ListVariables(db: Database, ctx: Context, first: Option<int>, after: Option<Cursor>, searchTerm: Option<string>)
    returns (r: Result<Connection<VariableNode>>)
    ensures ctx.user.None? ==> r == Err(Unauthorized)
    ensures ctx.user.Some? && PageSize(first) < 0 ==> r == Err(FirstNegative)
    ensures ctx.user.Some? && PageSize(first) >= 0 && AfterId(after).Err? ==> r == Err(InvalidInteger)
    ensures r.Ok? <==> ctx.user.Some? && PageSize(first) >= 0 && AfterId(after).Ok?
    ensures r.Ok? ==>
      IsKeysetPage(r.value, AboveCursor(db.variables.rows, Listed(ctx.user.value, searchTerm), AfterId(after).value),
                   PageSize(first), MapExerciseVariableRow)
  {
    var auth := RequireAuth(ctx);
    if auth.Err? {
      return Err(auth.msg);
    }
    var limit := PageSize(first);
    if limit < 0 {
      return Err(FirstNegative);
    }
    var afterId := AfterId(after);
    if afterId.Err? {
      return Err(afterId.msg);
    }
    var matching := AboveCursor(db.variables.rows, Listed(auth.value, searchTerm), afterId.value);
    var page := KeysetPage(matching, limit, MapExerciseVariableRow);
    return Ok(page);
  }

  /**
   * Every variable on a page is one of the caller's, not archived, matching
   * the search term, beyond the cursor, and listed under its own cursor.
   */
  lemma ListedVariablesVisible(c: Connection<VariableNode>, rows: seq<Row<VariableData>>, userId: nat,
                               searchTerm: Option<string>, after: Option<nat>, first: int)
    requires IdsAscending(rows)
    requires IsKeysetPage(c, AboveCursor(rows, Listed(userId, searchTerm), after), first, MapExerciseVariableRow)
    ensures forall i :: 0 <= i < |c.edges| ==>
      exists v :: v in rows && v.data.archivedAt.None? && v.data.createdBy == userId
        && MatchesSearch(v.data.name, searchTerm) && (after.None? || v.id > after.value)
        && c.edges[i] == Edge(CursorOf(v.id), MapExerciseVariableRow(v))
  {
    PageFromRows(c, rows, Listed(userId, searchTerm), after, first, MapExerciseVariableRow);
  }

  // ---------------------------------------------------------------------
  // `addExerciseVariable`

  /**
   * The checks `addExerciseVariable` makes before it writes: the caller,
   * `!name || !unit`, and the duplication check.
   */
  function AddCheck(rows: seq<Row<VariableData>>, ctx: Context, name: Option<string>, unit: Option<string>)
    : (r: Result<nat>)
    ensures ctx.user.None? ==> r == Err(Unauthorized)
    ensures ctx.user.Some? && (Falsy(name) || Falsy(unit)) ==> r == Err(InvalidRequest)
    ensures r.Ok? <==>
      ctx.user.Some? && !Falsy(name) && !Falsy(unit) && !Clashes(rows, VariableKey, (ctx.user.value, name.value), None)
    ensures r.Ok? ==> Some(r.value) == ctx.user
    ensures r.Err? ==> r.msg in {Unauthorized, InvalidRequest, VariableExists}
  {
    if ctx.user.None? then Err(Unauthorized)
    else if Falsy(name) || Falsy(unit) then Err(InvalidRequest)
    else
      match CheckDuplication(rows, name.value, ctx.user.value, None)
      case Err(m) => Err(m)
      case Ok(_) => Ok(ctx.user.value)
  }

  /**
   * `addExerciseVariable(name, unit, description)`: after the checks, a new
   * variable of the caller, its description as given; the owner's live
   * variable names stay unique.
   */
  method AddVariable(db: Database, ctx: Context, name: Option<string>, unit: Option<string>,
                     description: Option<string>, now: Time)
    returns (r: Result<VariableNode>)
    requires db.CatalogueValid()
    modifies db.variables
    ensures db.CatalogueValid()
    ensures var check := AddCheck(old(db.variables.rows), ctx, name, unit);
      (check.Err? ==> r == Err(check.msg) && db.variables.rows == old(db.variables.rows))
      && (check.Ok? ==>
            var v := Row(old(db.variables.nextId), VariableData(name.value, unit.value, description, check.value, None, now, now));
            db.variables.rows == old(db.variables.rows) + [v] && r == Ok(MapExerciseVariableRow(v)))
    ensures UniqueBy(old(db.variables.rows), VariableKey) ==> UniqueBy(db.variables.rows, VariableKey)
  {
    var check := AddCheck(db.variables.rows, ctx, name, unit);
    if check.Err? {
      return Err(check.msg);
    }
    ghost var before := db.variables.rows;
    var d := VariableData(name.value, unit.value, description, check.value, None, now, now);
    var id := db.variables.Insert(d);
    if UniqueBy(before, VariableKey) {
      AppendKeepsUnique(before, VariableKey, Row(id, d));
    }
    return Ok(MapExerciseVariableRow(Row(id, d)));
  }

  // ---------------------------------------------------------------------
  // `editExerciseVariable`

  /**
   * The checks `editExerciseVariable` makes before it writes: the caller,
   * `!id || !name || !unit`, the ownership guard, then the duplication
   * check with the variable itself excluded. `Ok(n)` is the variable.
   */
  function EditTarget(rows: seq<Row<VariableData>>, ctx: Context, id: Option<string>, name: Option<string>,
                      unit: Option<string>): (r: Result<nat>)
    ensures ctx.user.None? ==> r == Err(Unauthorized)
    ensures ctx.user.Some? && (Falsy(id) || Falsy(name) || Falsy(unit)) ==> r == Err(InvalidRequest)
    ensures r.Ok? <==>
      ctx.user.Some? && !Falsy(id) && !Falsy(name) && !Falsy(unit)
      && OwnedTarget(rows, VariableOwner, DecodeId(ExerciseVariables, id), ctx.user.value, ErrorMessage).Ok?
      && !Clashes(rows, VariableKey, (ctx.user.value, name.value),
                  Some(OwnedTarget(rows, VariableOwner, DecodeId(ExerciseVariables, id), ctx.user.value, ErrorMessage).value))
    ensures r.Ok? ==>
      OwnedRowExists(rows, VariableOwner, r.value, ctx.user.value)
      && ParseNat(DecodeId(ExerciseVariables, id).value) == Some(r.value)
    ensures r.Err? ==> r.msg in {Unauthorized, InvalidRequest, InvalidInteger, VariableNotFound, VariableExists}
  {
    if ctx.user.None? then Err(Unauthorized)
    else if Falsy(id) || Falsy(name) || Falsy(unit) then Err(InvalidRequest)
    else
      var numericId := DecodeId(ExerciseVariables, id);
      match OwnedTarget(rows, VariableOwner, numericId, ctx.user.value, ErrorMessage)
      case Err(m) => Err(m)
      case Ok(n) =>
        match CheckDuplication(rows, name.value, ctx.user.value, numericId)
        case Err(m) => Err(m)
        case Ok(_) => Ok(n)
  }

  /** `SET name = $1, unit = $2, description = $3, updated_at = NOW()`. */
  function Revised(name: string, unit: string, description: Option<string>, now: Time): VariableData -> VariableData
  {
    (d: VariableData) => d.(name := name, unit := unit, description := description, updatedAt := now)
  }

  /** A rename that passed the duplication check with the variable itself excluded keeps live names unique. */
  lemma ReviseKeepsUnique(rows: seq<Row<VariableData>>, n: nat, userId: nat, name: string, unit: string,
                          description: Option<string>, now: Time)
    requires UniqueBy(rows, VariableKey) && IdsAscending(rows)
    requires OwnedRowExists(rows, VariableOwner, n, userId)
    requires !Clashes(rows, VariableKey, (userId, name), Some(n))
    ensures UniqueBy(Updated(rows, IdIs(n), Revised(name, unit, description, now)), VariableKey)
  {
    var g := Revised(name, unit, description, now);
    forall i | 0 <= i < |rows| && IdIs(n)(rows[i]) && VariableKey(g(rows[i].data)).Some?
      ensures !Clashes(rows, VariableKey, VariableKey(g(rows[i].data)).value, Some(n))
    {
      var k :| 0 <= k < |rows| && rows[k].id == n && VariableOwner(rows[k].data) == Some(userId);
      assert VariableKey(g(rows[i].data)).value == (userId, name);
    }
    UpdateOneKeepsUnique(rows, VariableKey, IdIs(n), n, g);
  }

  /** The `UPDATE … RETURNING *` of `editExerciseVariable`, on a variable of the caller that passed the checks. */
  method ReviseVariable(variables: Table<VariableData>, userId: nat, n: nat, name: string, unit: string,
                        description: Option<string>, now: Time)
    returns (v: Row<VariableData>)
    requires variables.Valid()
    requires OwnedRowExists(variables.rows, VariableOwner, n, userId)
    requires !Clashes(variables.rows, VariableKey, (userId, name), Some(n))
    modifies variables
    ensures variables.Valid()
    ensures variables.rows == Updated(old(variables.rows), IdIs(n), Revised(name, unit, description, now))
    ensures v in variables.rows && v.id == n && v.data.name == name && v.data.unit == unit
            && v.data.description == description && v.data.updatedAt == now
    ensures UniqueBy(old(variables.rows), VariableKey) ==> UniqueBy(variables.rows, VariableKey)
  {
    if UniqueBy(variables.rows, VariableKey) {
      ReviseKeepsUnique(variables.rows, n, userId, name, unit, description, now);
    }
    ghost var w := UpdatedReadBack(variables.rows, n, Revised(name, unit, description, now));
    variables.UpdateWhere(IdIs(n), Revised(name, unit, description, now));
    var returned := Select(variables.rows, IdIs(n));
    v := returned[0];
  }

  /**
   * `editExerciseVariable(id, name, unit, description)`: after the checks,
   * only the name, unit and description of the one variable change, and it
   * comes back mapped.
   */
  method EditVariable(db: Database, ctx: Context, id: Option<string>, name: Option<string>, unit: Option<string>,
                      description: Option<string>, now: Time)
    returns (r: Result<VariableNode>)
    requires db.CatalogueValid()
    modifies db.variables
    ensures db.CatalogueValid()
    ensures var target := EditTarget(old(db.variables.rows), ctx, id, name, unit);
      (target.Err? ==> r == Err(target.msg) && db.variables.rows == old(db.variables.rows))
      && (target.Ok? ==>
            db.variables.rows == Updated(old(db.variables.rows), IdIs(target.value), Revised(name.value, unit.value, description, now))
            && r.Ok? && exists v :: v in db.variables.rows && v.id == target.value && v.data.name == name.value
                                    && v.data.unit == unit.value && v.data.description == description
                                    && r.value == MapExerciseVariableRow(v))
    ensures UniqueBy(old(db.variables.rows), VariableKey) ==> UniqueBy(db.variables.rows, VariableKey)
  {
    var target := EditTarget(db.variables.rows, ctx, id, name, unit);
    if target.Err? {
      return Err(target.msg);
    }
    var v := ReviseVariable(db.variables, ctx.user.value, target.value, name.value, unit.value, description, now);
    return Ok(MapExerciseVariableRow(v));
  }

  /** An edit changes nothing but the name, unit, description and update time of the one variable. */
  lemma EditTouchesOnlyTarget(rows: seq<Row<VariableData>>, n: nat, name: string, unit: string,
                              description: Option<string>, now: Time)
    ensures var after := Updated(rows, IdIs(n), Revised(name, unit, description, now));
      |after| == |rows|
      && (forall i :: 0 <= i < |rows| && rows[i].id != n ==> after[i] == rows[i])
      && (forall i :: 0 <= i < |rows| && rows[i].id == n ==>
            after[i].id == n && after[i].data.createdBy == rows[i].data.createdBy
            && after[i].data.archivedAt == rows[i].data.archivedAt && after[i].data.createdAt == rows[i].data.createdAt
            && after[i].data.name == name && after[i].data.unit == unit && after[i].data.description == description)
  {
  }

  // ---------------------------------------------------------------------
  // `deleteExerciseVariable`

  /** `SET archived_at = CURRENT_TIMESTAMP, updated_at = NOW()`. */
  function Archive(now: Time): VariableData -> VariableData
  {
    (d: VariableData) => d.(archivedAt := Some(now), updatedAt := now)
  }

  /**
   * `deleteExerciseVariable(id)`: archives the caller's variable and answers
   * with the id it was given; the row stays, out of every listing.
   */
  method DeleteVariable(db: Database, ctx: Context, id: string, now: Time) returns (r: Result<string>)
    requires db.CatalogueValid()
    modifies db.variables
    ensures db.CatalogueValid()
    ensures ctx.user.None? ==> r == Err(Unauthorized) && db.variables.rows == old(db.variables.rows)
    ensures ctx.user.Some? ==>
      var target := OwnedTarget(old(db.variables.rows), VariableOwner, DecodeId(ExerciseVariables, Some(id)), ctx.user.value,
                                ErrorMessage);
      (target.Err? ==> r == Err(target.msg) && db.variables.rows == old(db.variables.rows))
      && (target.Ok? ==>
            r == Ok(id) && db.variables.rows == Updated(old(db.variables.rows), IdIs(target.value), Archive(now)))
    ensures UniqueBy(old(db.variables.rows), VariableKey) ==> UniqueBy(db.variables.rows, VariableKey)
  {
    var auth := RequireAuth(ctx);
    if auth.Err? {
      return Err(auth.msg);
    }
    var target := OwnedTarget(db.variables.rows, VariableOwner, DecodeId(ExerciseVariables, Some(id)), auth.value, ErrorMessage);
    if target.Err? {
      return Err(target.msg);
    }
    ghost var before := db.variables.rows;
    db.variables.UpdateWhere(IdIs(target.value), Archive(now));
    if UniqueBy(before, VariableKey) {
      ClearKeepsUnique(before, VariableKey, IdIs(target.value), Archive(now));
    }
    return Ok(id);
  }

  /** An archived variable leaves every listing. */
  lemma ArchivedNotListed(rows: seq<Row<VariableData>>, n: nat, now: Time, userId: nat, searchTerm: Option<string>,
                          after: Option<nat>)
    ensures forall v :: v in AboveCursor(Updated(rows, IdIs(n), Archive(now)), Listed(userId, searchTerm), after) ==> v.id != n
  {
    var archived := Updated(rows, IdIs(n), Archive(now));
    var m := AboveCursor(archived, Listed(userId, searchTerm), after);
    forall v | v in m
      ensures v.id != n
    {
      var i :| 0 <= i < |m| && m[i] == v;
      var j :| 0 <= j < |archived| && archived[j] == v;
    }
  }
}
