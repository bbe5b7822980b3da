/**
 * The templates resolvers (src/templates/templates.resolvers.ts): the
 * paged listing, the composite create and update, the archive, and the
 * `TemplateExercise.sets` reader.
 */
module Templates {
  import opened Wrappers
  import opened Text
  import opened Ids
  import opened Store
  import opened Guards
  import opened Paging
  import opened Sorting
  import opened SetGroups
  import opened Uniqueness
  import opened Composite
  import opened TemplateUtils

  // ---------------------------------------------------------------------
  // `templates`

  /** The `WHERE` of the listing: not archived, the caller's, and matching the search term. */
  function Visible(userId: nat, searchTerm: Option<string>): Row<TemplateData> -> bool
  {
    (t: Row<TemplateData>) =>
      t.data.archivedAt.None? && t.data.createdBy == userId && MatchesSearch(t.data.name, searchTerm)
  }

  /**
   * `templates(first, after, searchTerm)`: a keyset page over the caller's
   * visible templates beyond the cursor, in id order. The `category`
   * argument is accepted and ignored.
   */
  method ListTemplates(db: Database, ctx: Context, first: Option<int>, after: Option<Cursor>, searchTerm: Option<string>)
    returns (r: Result<Connection<TemplateNode>>)
    ensures ctx.user.None? ==> r == Err(Unauthorized)
    ensures ctx.user.Some? && PageSize(first) < 0 ==> r == Err(FirstNegative)
    ensures ctx.user.Some? && PageSize(first) >= 0 && AfterId(after).Err? ==> r == Err(InvalidInteger)
    ensures r.Ok? <==> ctx.user.Some? && PageSize(first) >= 0 && AfterId(after).Ok?
    ensures r.Ok? ==>
      IsKeysetPage(r.value, AboveCursor(db.templates.rows, Visible(ctx.user.value, searchTerm), AfterId(after).value),
                   PageSize(first), MapTemplateRow)
  {
    var auth := RequireAuth(ctx);
    if auth.Err? {
      return Err(auth.msg);
    }
    var limit := PageSize(first);
    if limit < 0 {
      return Err(FirstNegative);
    }
    var afterId := AfterId(after);
    if afterId.Err? {
      return Err(afterId.msg);
    }
    var matching := AboveCursor(db.templates.rows, Visible(auth.value, searchTerm), afterId.value);
    var page := KeysetPage(matching, limit, MapTemplateRow);
    return Ok(page);
  }

  /**
   * Every template on a page is one of the caller's, not archived, matching
   * the search term, beyond the cursor, and listed under its own cursor.
   */
  lemma ListedTemplatesVisible(c: Connection<TemplateNode>, rows: seq<Row<TemplateData>>, userId: nat,
                               searchTerm: Option<string>, after: Option<nat>, first: int)
    requires IdsAscending(rows)
    requires IsKeysetPage(c, AboveCursor(rows, Visible(userId, searchTerm), after), first, MapTemplateRow)
    ensures forall i :: 0 <= i < |c.edges| ==>
      exists t :: t in rows && t.data.archivedAt.None? && t.data.createdBy == userId
        && MatchesSearch(t.data.name, searchTerm) && (after.None? || t.id > after.value)
        && c.edges[i] == Edge(CursorOf(t.id), MapTemplateRow(t))
  {
    PageFromRows(c, rows, Visible(userId, searchTerm), after, first, MapTemplateRow);
  }

  // ---------------------------------------------------------------------
  // `createTemplate`

  /** `!name || !exercises?.length`. */
  predicate WellFormed(name: Option<string>, exs: seq<ExerciseInput>)
  {
    name.Some? && name.value != "" && |exs| > 0
  }

  /** The row `INSERT INTO templates … RETURNING *` adds; both timestamps default to now. */
  function NewTemplate(id: nat, name: string, description: Option<string>, userId: nat, now: Time): Row<TemplateData>
  {
    Row(id, TemplateData(name, description, userId, None, now, now))
  }

  /**
   * The transaction of `createTemplate`: the template row, its links and
   * their set variables, then the upload (`uploadError` is its outcome). A
   * failure after `BEGIN` rolls the three tables back.
   */
  method InsertTemplate(templates: Table<TemplateData>, links: Table<LinkData>, setVars: Table<SetVarData>,
                        d: TemplateData, exs: seq<ExerciseInput>, uploadError: Option<string>)
    returns (r: Result<Row<TemplateData>>)
    requires templates.Valid() && links.Valid() && setVars.Valid()
    modifies templates, links, setVars
    ensures templates.Valid() && links.Valid() && setVars.Valid()
    ensures r.Ok? <==>
      LinkRows(old(templates.nextId), exs).Ok? && ChildVars(old(links.nextId), exs).complete && uploadError.None?
    ensures r.Err? ==>
      templates.rows == old(templates.rows) && links.rows == old(links.rows) && setVars.rows == old(setVars.rows)
    ensures r.Ok? ==>
      r.value == Row(old(templates.nextId), d)
      && templates.rows == old(templates.rows) + [r.value]
      && links.rows == old(links.rows) + Numbered(old(links.nextId), LinkRows(r.value.id, exs).value)
      && setVars.rows == old(setVars.rows) + Numbered(old(setVars.nextId), ChildVars(old(links.nextId), exs).rows)
  {
    // BEGIN
    var savedTemplates, savedLinks, savedVars := templates.rows, links.rows, setVars.rows;
    var id := templates.Insert(d);
    var children := WriteChildren(links, setVars, id, exs);
    var failure := if children.Err? then Some(children.msg) else uploadError;
    if failure.Some? {
      // ROLLBACK
      templates.Restore(savedTemplates, old(templates.nextId));
      links.Restore(savedLinks, old(links.nextId));
      setVars.Restore(savedVars, old(setVars.nextId));
      return Err(failure.value);
    }
    // COMMIT
    return Ok(Row(id, d));
  }

  /**
   * `createTemplate`: the caller, the required fields and the duplication
   * check, then the transaction. A created template keeps the caller's
   * template names unique.
   */
  method CreateTemplate(db: Database, ctx: Context, name: Option<string>, description: Option<string>,
                        exs: seq<ExerciseInput>, now: Time, uploadError: Option<string>)
    returns (r: Result<TemplateNode>)
    requires db.TemplatesValid()
    modifies db.templates, db.templateLinks, db.templateSetVars
    ensures db.TemplatesValid()
    ensures ctx.user.None? ==> r == Err(Unauthorized)
    ensures ctx.user.Some? && !WellFormed(name, exs) ==> r == Err(InvalidRequest)
    ensures ctx.user.Some? && WellFormed(name, exs) && Clashes(old(db.templates.rows), TemplateKey, (ctx.user.value, name.value), None) ==>
      r == Err(TemplateExists)
    ensures r.Ok? <==>
      ctx.user.Some? && WellFormed(name, exs) && !Clashes(old(db.templates.rows), TemplateKey, (ctx.user.value, name.value), None)
      && LinkRows(old(db.templates.nextId), exs).Ok? && ChildVars(old(db.templateLinks.nextId), exs).complete
      && uploadError.None?
    ensures r.Err? ==>
      db.templates.rows == old(db.templates.rows) && db.templateLinks.rows == old(db.templateLinks.rows)
      && db.templateSetVars.rows == old(db.templateSetVars.rows)
    ensures r.Ok? ==>
      var t := NewTemplate(old(db.templates.nextId), name.value, description, ctx.user.value, now);
      r.value == MapTemplateRow(t)
      && db.templates.rows == old(db.templates.rows) + [t]
      && db.templateLinks.rows == old(db.templateLinks.rows) + Numbered(old(db.templateLinks.nextId), LinkRows(t.id, exs).value)
      && db.templateSetVars.rows == old(db.templateSetVars.rows)
                                    + Numbered(old(db.templateSetVars.nextId), ChildVars(old(db.templateLinks.nextId), exs).rows)
    ensures UniqueBy(old(db.templates.rows), TemplateKey) ==> UniqueBy(db.templates.rows, TemplateKey)
  {
    var auth := RequireAuth(ctx);
    if auth.Err? {
      return Err(auth.msg);
    }
    if !WellFormed(name, exs) {
      return Err(InvalidRequest);
    }
    var dup := CheckDuplication(db.templates.rows, name.value, auth.value, None);
    if dup.Err? {
      return Err(dup.msg);
    }
    ghost var before := db.templates.rows;
    var written := InsertTemplate(db.templates, db.templateLinks, db.templateSetVars,
                                  TemplateData(name.value, description, auth.value, None, now, now), exs, uploadError);
    if written.Err? {
      return Err(written.msg);
    }
    if UniqueBy(before, TemplateKey) {
      AppendKeepsUnique(before, TemplateKey, written.value);
    }
    return Ok(MapTemplateRow(written.value));
  }

  // ---------------------------------------------------------------------
  // `updateTemplate`

  /** `SET name = $1, description = $2, updated_at = NOW()`. */
  function Revised(name: string, description: Option<string>, now: Time): TemplateData -> TemplateData
  {
    (d: TemplateData) => d.(name := name, description := description, updatedAt := now)
  }

  /**
   * The checks `updateTemplate` makes before its first write: the caller,
   * the required fields, the ownership guard on the decoded id, and the
   * duplication check with the template itself excluded. `Ok(n)` is the
   * template to update.
   */
  function UpdateTarget(rows: seq<Row<TemplateData>>, ctx: Context, id: Option<string>, name: Option<string>,
                        exs: seq<ExerciseInput>): (r: Result<nat>)
    ensures ctx.user.None? ==> r == Err(Unauthorized)
    ensures ctx.user.Some? && (id.None? || id.value == "" || !WellFormed(name, exs)) ==> r == Err(InvalidRequest)
    ensures r.Ok? ==>
      ctx.user.Some? && id.Some? && WellFormed(name, exs)
      && DecodeId(Template, id).Some? && ParseNat(DecodeId(Template, id).value) == Some(r.value)
      && OwnedRowExists(rows, TemplateOwner, r.value, ctx.user.value)
      && !Clashes(rows, TemplateKey, (ctx.user.value, name.value), Some(r.value))
    ensures r.Err? && ctx.user.Some? && id.Some? && id.value != "" && WellFormed(name, exs) ==>
      r.msg in {InvalidInteger, TemplateNotFound, TemplateExists}
  {
    if ctx.user.None? then Err(Unauthorized)
    else if id.None? || id.value == "" || !WellFormed(name, exs) then Err(InvalidRequest)
    else
      match OwnedTarget(rows, TemplateOwner, DecodeId(Template, id), ctx.user.value, ErrorMessage)
      case Err(m) => Err(m)
      case Ok(n) =>
        match CheckDuplication(rows, name.value, ctx.user.value, Some(n))
        case Err(m) => Err(m)
        case Ok(_) => Ok(n)
  }

  /**
   * `UPDATE templates SET … WHERE id = $3 RETURNING *` on the caller's
   * template `n`, after the duplication check let the new name through:
   * the row comes back renamed and names stay unique.
   */
  method RenameTemplate(templates: Table<TemplateData>, userId: nat, n: nat, name: string,
                        description: Option<string>, now: Time)
    returns (t: Row<TemplateData>)
    requires templates.Valid()
    requires OwnedRowExists(templates.rows, TemplateOwner, n, userId)
    requires !Clashes(templates.rows, TemplateKey, (userId, name), Some(n))
    modifies templates
    ensures templates.Valid()
    ensures templates.rows == Updated(old(templates.rows), IdIs(n), Revised(name, description, now))
    ensures t in templates.rows && t.id == n && t.data.name == name && t.data.description == description
    ensures UniqueBy(old(templates.rows), TemplateKey) ==> UniqueBy(templates.rows, TemplateKey)
  {
    if UniqueBy(templates.rows, TemplateKey) {
      RenameKeepsUnique(templates.rows, n, userId, name, description, now);
    }
    ghost var w := UpdatedReadBack(templates.rows, n, Revised(name, description, now));
    templates.UpdateWhere(IdIs(n), Revised(name, description, now));
    var returned := Select(templates.rows, IdIs(n));
    t := returned[0];
  }

  /**
   * `updateTemplate`: the checks, then the rename, the replacement of the
   * exercise list, and the upload. No transaction is open, so each
   * statement stays once it has run: a failure part-way leaves the rename
   * and the deletions in place.
   */
  method UpdateTemplate(db: Database, ctx: Context, id: Option<string>, name: Option<string>, description: Option<string>,
                        exs: seq<ExerciseInput>, now: Time, uploadError: Option<string>)
    returns (r: Result<TemplateNode>)
    requires db.TemplatesValid()
    modifies db.templates, db.templateLinks, db.templateSetVars
    ensures db.TemplatesValid()
    ensures UpdateTarget(old(db.templates.rows), ctx, id, name, exs).Err? ==>
      r == Err(UpdateTarget(old(db.templates.rows), ctx, id, name, exs).msg)
      && db.templates.rows == old(db.templates.rows) && db.templateLinks.rows == old(db.templateLinks.rows)
      && db.templateSetVars.rows == old(db.templateSetVars.rows)
    ensures UpdateTarget(old(db.templates.rows), ctx, id, name, exs).Ok? ==>
      var n := UpdateTarget(old(db.templates.rows), ctx, id, name, exs).value;
      db.templates.rows == Updated(old(db.templates.rows), IdIs(n), Revised(name.value, description, now))
      && Replaced(old(db.templateLinks.rows), old(db.templateSetVars.rows), old(db.templateLinks.nextId),
                  old(db.templateSetVars.nextId), db.templateLinks.rows, db.templateSetVars.rows, n, exs)
      && (r.Ok? <==> LinkRows(n, exs).Ok? && ChildVars(old(db.templateLinks.nextId), exs).complete && uploadError.None?)
      && (r.Ok? ==> exists t :: t in db.templates.rows && t.id == n && r.value == MapTemplateRow(t))
    ensures UniqueBy(old(db.templates.rows), TemplateKey) ==> UniqueBy(db.templates.rows, TemplateKey)
  {
    var target := UpdateTarget(db.templates.rows, ctx, id, name, exs);
    if target.Err? {
      return Err(target.msg);
    }
    var n := target.value;
    var template := RenameTemplate(db.templates, ctx.user.value, n, name.value, description, now);
    // No BEGIN: each statement stays once it has run.
    var children := ReplaceChildren(db.templateLinks, db.templateSetVars, n, exs);
    if children.Err? {
      return Err(children.msg);
    }
    // COMMIT, then the upload.
    if uploadError.Some? {
      return Err(uploadError.value);
    }
    return Ok(MapTemplateRow(template));
  }

  /**
   * A rename that passed the duplication check with the template itself
   * excluded keeps the owner's template names unique.
   */
  lemma RenameKeepsUnique(rows: seq<Row<TemplateData>>, n: nat, userId: nat, name: string, description: Option<string>, now: Time)
    requires UniqueBy(rows, TemplateKey) && IdsAscending(rows)
    requires OwnedRowExists(rows, TemplateOwner, n, userId)
    requires !Clashes(rows, TemplateKey, (userId, name), Some(n))
    ensures UniqueBy(Updated(rows, IdIs(n), Revised(name, description, now)), TemplateKey)
  {
    var g := Revised(name, description, now);
    forall i | 0 <= i < |rows| && IdIs(n)(rows[i]) && TemplateKey(g(rows[i].data)).Some?
      ensures !Clashes(rows, TemplateKey, TemplateKey(g(rows[i].data)).value, Some(n))
    {
      var k :| 0 <= k < |rows| && rows[k].id == n && TemplateOwner(rows[k].data) == Some(userId);
      assert TemplateKey(g(rows[i].data)).value == (userId, name);
    }
    UpdateOneKeepsUnique(rows, TemplateKey, IdIs(n), n, g);
  }

  // ---------------------------------------------------------------------
  // `deleteTemplate`

  /** `SET archived_at = CURRENT_TIMESTAMP, updated_at = NOW()`. */
  function Archive(now: Time): TemplateData -> TemplateData
  {
    (d: TemplateData) => d.(archivedAt := Some(now), updatedAt := now)
  }

  /**
   * `deleteTemplate(id)`: archives the caller's template and deletes its
   * photo (`photoError` is that call's outcome, which comes after the
   * archive has been written). It answers with the id it was given.
   */
  method DeleteTemplate(db: Database, ctx: Context, id: string, now: Time, photoError: Option<string>)
    returns (r: Result<string>)
    requires db.TemplatesValid()
    modifies db.templates
    ensures db.TemplatesValid()
    ensures ctx.user.None? ==> r == Err(Unauthorized) && db.templates.rows == old(db.templates.rows)
    ensures ctx.user.Some? ==>
      var target := OwnedTarget(old(db.templates.rows), TemplateOwner, DecodeId(Template, Some(id)), ctx.user.value, ErrorMessage);
      (target.Err? ==> r == Err(target.msg) && db.templates.rows == old(db.templates.rows))
      && (target.Ok? ==>
            db.templates.rows == Updated(old(db.templates.rows), IdIs(target.value), Archive(now))
            && (r.Ok? <==> photoError.None?) && (r.Ok? ==> r.value == id))
    ensures UniqueBy(old(db.templates.rows), TemplateKey) ==> UniqueBy(db.templates.rows, TemplateKey)
  {
    var auth := RequireAuth(ctx);
    if auth.Err? {
      return Err(auth.msg);
    }
    var target := OwnedTarget(db.templates.rows, TemplateOwner, DecodeId(Template, Some(id)), auth.value, ErrorMessage);
    if target.Err? {
      return Err(target.msg);
    }
    ghost var before := db.templates.rows;
    db.templates.UpdateWhere(IdIs(target.value), Archive(now));
    if UniqueBy(before, TemplateKey) {
      ClearKeepsUnique(before, TemplateKey, IdIs(target.value), Archive(now));
    }
    if photoError.Some? {
      return Err(photoError.value);
    }
    return Ok(id);
  }

  /** An archived template is out of every listing and every duplication check. */
  lemma ArchivedTemplateHidden(rows: seq<Row<TemplateData>>, n: nat, now: Time, userId: nat, searchTerm: Option<string>)
    ensures forall i :: 0 <= i < |rows| && rows[i].id == n ==>
      !Visible(userId, searchTerm)(Updated(rows, IdIs(n), Archive(now))[i])
      && TemplateKey(Updated(rows, IdIs(n), Archive(now))[i].data).None?
  {
  }

  // ---------------------------------------------------------------------
  // `TemplateExercise.sets`

  /** One entry of a set: the variable (from the join) and its target value. */
  datatype TemplateSetVariable = TemplateSetVariable(variable: VariableRef, targetValue: Option<string>)

  /** `ev.name ASC` on entries. */
  predicate NameLe(a: TemplateSetVariable, b: TemplateSetVariable)
  {
    NullsLastLe(a.variable.name, b.variable.name)
  }

  lemma NameLeTotal()
    ensures TotalPreorder(NameLe)
  {
    NullsLastTotal();
    assert TotalPreorder(NullsLastLe);
    forall a: TemplateSetVariable, b: TemplateSetVariable
      ensures NameLe(a, b) || NameLe(b, a)
    {
      assert NullsLastLe(a.variable.name, b.variable.name) || NullsLastLe(b.variable.name, a.variable.name);
    }
    forall a: TemplateSetVariable, b: TemplateSetVariable, c: TemplateSetVariable | NameLe(a, b) && NameLe(b, c)
      ensures NameLe(a, c)
    {
      assert NullsLastLe(a.variable.name, c.variable.name);
    }
  }

  /** The rows of the reader's query, keyed by set number, in table order. */
  function SetEntries(setVars: seq<Row<SetVarData>>, variables: seq<Row<VariableData>>, link: Option<nat>)
    : (r: seq<(int, TemplateSetVariable)>)
    ensures link.None? ==> r == []
    ensures link.Some? ==> |r| == |JoinedRows(setVars, variables, link.value)|
    ensures link.Some? ==> forall i :: 0 <= i < |r| ==>
      var j := JoinedRows(setVars, variables, link.value)[i];
      r[i] == (j.setNumber, TemplateSetVariable(VariableRefOf(j.variable), j.targetValue))
  {
    if link.None? then []
    else
      var js := JoinedRows(setVars, variables, link.value);
      seq(|js|, i requires 0 <= i < |js| => (js[i].setNumber, TemplateSetVariable(VariableRefOf(js[i].variable), js[i].targetValue)))
  }

  /**
   * `sets(parent)`: the set-variable rows of one template exercise, joined
   * with their variables, ordered by set number then variable name, and
   * grouped into one set per set number.
   */
  method TemplateSets(db: Database, parentId: string) returns (r: Result<seq<SetGroup<TemplateSetVariable>>>)
    ensures r.Err? <==> LinkParam(TemplateExercises, parentId).Err?
    ensures r.Err? ==> r.msg == InvalidInteger
    ensures r.Ok? ==>
      IsGrouping(r.value, SortBy(SetEntries(db.templateSetVars.rows, db.variables.rows,
                                            LinkParam(TemplateExercises, parentId).value), ByKeyThen(NameLe)))
  {
    var link := LinkParam(TemplateExercises, parentId);
    if link.Err? {
      return Err(link.msg);
    }
    var rows := SortBy(SetEntries(db.templateSetVars.rows, db.variables.rows, link.value), ByKeyThen(NameLe));
    var groups := GroupBySetNumber(rows);
    return Ok(groups);
  }

  /**
   * What the reader promises: set numbers strictly ascending (so each
   * appears once), the variables of each set in name order, and every row
   * of the query in exactly one set.
   */
  lemma TemplateSetsOrdered(groups: seq<SetGroup<TemplateSetVariable>>, entries: seq<(int, TemplateSetVariable)>)
    requires IsGrouping(groups, SortBy(entries, ByKeyThen(NameLe)))
    ensures SetsAscending(groups)
    ensures SetsSorted(groups, NameLe)
    ensures SumSizes(SortBy(entries, ByKeyThen(NameLe)), DistinctKeys(SortBy(entries, ByKeyThen(NameLe)))) == |entries|
  {
    NameLeTotal();
    SortedGroupsOrdered(groups, entries, NameLe);
  }
}
