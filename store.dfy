/**
 * The database the resolvers talk to, as an in-memory store: one `Table`
 * object per SQL table, each a sequence of rows in insertion order with a
 * serial counter for new ids. Queries are filters over those sequences;
 * statements are methods that reassign a table's rows.
 */
module Store {
  import opened Wrappers
  import opened Text

  /** A timestamp. `NOW()` and `CURRENT_TIMESTAMP` reach the model as a `now` parameter. */
  type Time = nat

  /** What Postgres answers when a text parameter bound to an integer column is not an integer. */
  const InvalidInteger := "invalid input syntax for type integer"

  /** Binding a text parameter to an integer column. */
  function BindInt(s: string): (r: Result<nat>)
    ensures r.Ok? <==> ParseNat(s).Some?
    ensures r.Ok? ==> Some(r.value) == ParseNat(s)
    ensures r.Err? ==> r.msg == InvalidInteger
  {
    match ParseNat(s)
    case Some(n) => Ok(n)
    case None => Err(InvalidInteger)
  }

  /** Binding a parameter that may be JavaScript `null`, which binds as SQL NULL. */
  function BindOptInt(s: Option<string>): (r: Result<Option<nat>>)
    ensures r == Ok(None) <==> s.None?
    ensures r.Err? <==> s.Some? && ParseNat(s.value).None?
    ensures r.Ok? && r.value.Some? ==> s.Some? && ParseNat(s.value) == r.value
    ensures r.Err? ==> r.msg == InvalidInteger
  {
    match s
    case None => Ok(None)
    case Some(t) =>
      match BindInt(t)
      case Ok(n) => Ok(Some(n))
      case Err(m) => Err(m)
  }

  /** JavaScript's `!s` on a decoded id: null or the empty string. */
  predicate Falsy(s: Option<string>)
  {
    s.None? || s.value == ""
  }

  /**
   * A decoded id that a query binds only when it is truthy (`x ? [x] : []`,
   * `x || null`): no parameter for a falsy one, the integer it reads as
   * otherwise.
   */
  function BindTruthy(s: Option<string>): (r: Result<Option<nat>>)
    ensures r == Ok(None) <==> Falsy(s)
    ensures r.Err? <==> !Falsy(s) && ParseNat(s.value).None?
    ensures r.Ok? && r.value.Some? ==> !Falsy(s) && ParseNat(s.value) == r.value
    ensures r.Err? ==> r.msg == InvalidInteger
  {
    if Falsy(s) then Ok(None) else BindOptInt(s)
  }

  datatype Row<F> = Row(id: nat, data: F)

  /** `ORDER BY id ASC` holds of a sequence of rows. */
  predicate IdsAscending<F>(rows: seq<Row<F>>)
  {
    forall i, j :: 0 <= i < j < |rows| ==> rows[i].id < rows[j].id
  }

  /** In a table whose ids ascend, an id names one row at most. */
  lemma SameIdSameRow<F>(rows: seq<Row<F>>, x: Row<F>, y: Row<F>)
    requires IdsAscending(rows) && x in rows && y in rows && x.id == y.id
    ensures x == y
  {
    var i :| 0 <= i < |rows| && rows[i] == x;
    var j :| 0 <= j < |rows| && rows[j] == y;
  }

  /** `SELECT … WHERE p`, in table order. */
  function Select<F>(rows: seq<Row<F>>, p: Row<F> -> bool): (r: seq<Row<F>>)
    ensures |r| <= |rows|
    ensures forall i :: 0 <= i < |r| ==> r[i] in rows && p(r[i])
    ensures forall i :: 0 <= i < |rows| && p(rows[i]) ==> rows[i] in r
    ensures IdsAscending(rows) ==> IdsAscending(r)
  {
    if rows == [] then []
    else
      var front := Select(rows[..|rows| - 1], p);
      var last := rows[|rows| - 1];
      if p(last) then front + [last] else front
  }

  /** Filtering an extended sequence extends the filtered one. */
  lemma SelectSnoc<F>(rows: seq<Row<F>>, x: Row<F>, p: Row<F> -> bool)
    ensures Select(rows + [x], p) == Select(rows, p) + (if p(x) then [x] else [])
  {
    assert (rows + [x])[..|rows|] == rows;
  }

  /** Filtering a concatenation filters each part. */
  lemma {:induction false} SelectAppend<F>(a: seq<Row<F>>, b: seq<Row<F>>, p: Row<F> -> bool)
    ensures Select(a + b, p) == Select(a, p) + Select(b, p)
    decreases |b|
  {
    if b != [] {
      var b' := b[..|b| - 1];
      assert a + b == (a + b') + [b[|b| - 1]];
      assert b == b' + [b[|b| - 1]];
      SelectSnoc(a + b', b[|b| - 1], p);
      SelectSnoc(b', b[|b| - 1], p);
      SelectAppend(a, b', p);
    } else {
      assert a + b == a;
    }
  }

  lemma LastSplit<T>(s: seq<T>)
    requires s != []
    ensures s == s[..|s| - 1] + [s[|s| - 1]]
  {
  }

  /** Filtering again by a stronger condition is filtering by it alone. */
  lemma {:induction false} SelectNarrow<F>(rows: seq<Row<F>>, q: Row<F> -> bool, p: Row<F> -> bool)
    requires forall r :: p(r) ==> q(r)
    ensures Select(Select(rows, q), p) == Select(rows, p)
  {
    if rows != [] {
      var front := rows[..|rows| - 1];
      var last := rows[|rows| - 1];
      SelectNarrow(front, q, p);
      if q(last) {
        SelectSnoc(Select(front, q), last, p);
      }
    }
  }

  /** A filter every row passes keeps every row. */
  lemma {:induction false} SelectAll<F>(rows: seq<Row<F>>, p: Row<F> -> bool)
    requires forall i :: 0 <= i < |rows| ==> p(rows[i])
    ensures Select(rows, p) == rows
  {
    if rows != [] {
      var front := rows[..|rows| - 1];
      SelectAll(front, p);
      LastSplit(rows);
    }
  }

  /** A filter no row passes keeps nothing. */
  lemma {:induction false} SelectNone<F>(rows: seq<Row<F>>, p: Row<F> -> bool)
    requires forall i :: 0 <= i < |rows| ==> !p(rows[i])
    ensures Select(rows, p) == []
  {
    if rows != [] {
      SelectNone(rows[..|rows| - 1], p);
    }
  }

  /** `UPDATE … SET g WHERE p`: every row that satisfies `p` has its data replaced by `g` of it. */
  function Updated<F>(rows: seq<Row<F>>, p: Row<F> -> bool, g: F -> F): (r: seq<Row<F>>)
    ensures |r| == |rows|
    ensures forall i :: 0 <= i < |rows| ==> r[i].id == rows[i].id
    ensures forall i :: 0 <= i < |rows| && !p(rows[i]) ==> r[i] == rows[i]
    ensures forall i :: 0 <= i < |rows| && p(rows[i]) ==> r[i].data == g(rows[i].data)
  {
    seq(|rows|, i requires 0 <= i < |rows| => if p(rows[i]) then Row(rows[i].id, g(rows[i].data)) else rows[i])
  }

  /** `WHERE id = $1`. */
  function IdIs<F>(id: nat): Row<F> -> bool
  {
    (r: Row<F>) => r.id == id
  }

  /**
   * `UPDATE … WHERE id = $1 RETURNING *` on an id some row has: the first
   * row read back has that id and holds `g` of the old row's data.
   */
  lemma UpdatedReadBack<F>(rows: seq<Row<F>>, n: nat, g: F -> F) returns (w: Row<F>)
    requires exists i :: 0 <= i < |rows| && rows[i].id == n
    ensures var s := Select(Updated(rows, IdIs(n), g), IdIs(n));
      |s| > 0 && s[0] in Updated(rows, IdIs(n), g) && s[0].id == n
      && w in rows && w.id == n && s[0].data == g(w.data)
  {
    var u := Updated(rows, IdIs(n), g);
    var s := Select(u, IdIs(n));
    var k :| 0 <= k < |rows| && rows[k].id == n;
    assert IdIs(n)(u[k]);
    var j :| 0 <= j < |u| && u[j] == s[0];
    w := rows[j];
  }

  /** The rows an `INSERT` of several values adds, numbered from the table's next serial value. */
  function Numbered<F>(first: nat, ds: seq<F>): (r: seq<Row<F>>)
    ensures |r| == |ds|
    ensures forall i :: 0 <= i < |ds| ==> r[i] == Row(first + i, ds[i])
  {
    seq(|ds|, i requires 0 <= i < |ds| => Row(first + i, ds[i]))
  }

  function DataOf<F>(rows: seq<Row<F>>): (r: seq<F>)
    ensures |r| == |rows|
    ensures forall i :: 0 <= i < |rows| ==> r[i] == rows[i].data
  {
    seq(|rows|, i requires 0 <= i < |rows| => rows[i].data)
  }

  /** Ids are positive, below `next`, and ascend in table order. */
  ghost predicate RowsBelow<F>(rows: seq<Row<F>>, next: nat)
  {
    IdsAscending(rows) && forall i :: 0 <= i < |rows| ==> 1 <= rows[i].id < next
  }

  /** An SQL table: its rows in insertion order and its serial counter. */
  class Table<F(==)> {
    var rows: seq<Row<F>>
    var nextId: nat

    /** The rows sit below the serial counter, which starts at 1. */
    ghost predicate Valid()
      reads this
    {
      1 <= nextId && RowsBelow(rows, nextId)
    }

    constructor ()
      ensures Valid() && rows == [] && nextId == 1
    {
      rows := [];
      nextId := 1;
    }

    /** `INSERT … RETURNING id` of one row. */
    method Insert(d: F) returns (id: nat)
      requires Valid()
      modifies this
      ensures Valid()
      ensures id == old(nextId) && nextId == old(nextId) + 1
      ensures rows == old(rows) + [Row(id, d)]
    {
      id := nextId;
      rows := rows + [Row(id, d)];
      nextId := nextId + 1;
    }

    /** `INSERT … VALUES (…), (…) RETURNING id`: the rows get consecutive ids, in input order. */
    method InsertAll(ds: seq<F>) returns (ids: seq<nat>)
      requires Valid()
      modifies this
      ensures Valid()
      ensures nextId == old(nextId) + |ds|
      ensures rows == old(rows) + Numbered(old(nextId), ds)
      ensures |ids| == |ds| && forall i :: 0 <= i < |ds| ==> ids[i] == old(nextId) + i
    {
      ids := [];
      var k := 0;
      while k < |ds|
        invariant 0 <= k <= |ds|
        invariant Valid()
        invariant nextId == old(nextId) + k
        invariant rows == old(rows) + Numbered(old(nextId), ds[..k])
        invariant |ids| == k && forall i :: 0 <= i < k ==> ids[i] == old(nextId) + i
      {
        var id := Insert(ds[k]);
        assert Numbered(old(nextId), ds[..k + 1]) == Numbered(old(nextId), ds[..k]) + [Row(id, ds[k])];
        ids := ids + [id];
        k := k + 1;
      }
      assert ds[..k] == ds;
    }

    /** `UPDATE … SET g WHERE p`. */
    method UpdateWhere(p: Row<F> -> bool, g: F -> F)
      requires Valid()
      modifies this
      ensures Valid() && nextId == old(nextId)
      ensures rows == Updated(old(rows), p, g)
    {
      rows := Updated(rows, p, g);
    }

    /** `DELETE … WHERE NOT keep`: the rows that satisfy `keep` stay, in order. */
    method DeleteWhere(keep: Row<F> -> bool)
      requires Valid()
      modifies this
      ensures Valid() && nextId == old(nextId)
      ensures rows == Select(old(rows), keep)
    {
      rows := Select(rows, keep);
    }

    /**
     * `ROLLBACK`: the rows go back to a saved state. The serial counter is not
     * restored, as a Postgres sequence is not transactional.
     */
    method Restore(saved: seq<Row<F>>, ghost savedNext: nat)
      requires Valid()
      requires RowsBelow(saved, savedNext) && savedNext <= nextId
      modifies this
      ensures Valid() && nextId == old(nextId) && rows == saved
    {
      rows := saved;
    }
  }

  // ---------------------------------------------------------------------
  // The data of each table's rows (the columns the resolvers use)

  datatype CategoryData = CategoryData(
    name: string, parent: Option<nat>, createdBy: nat,
    archivedAt: Option<Time>, createdAt: Time, updatedAt: Time)

  datatype ExerciseData = ExerciseData(
    name: string, url: string, category: nat, createdBy: nat,
    archivedAt: Option<Time>, createdAt: Time, updatedAt: Time)

  datatype VariableData = VariableData(
    name: string, unit: string, description: Option<string>, createdBy: nat,
    archivedAt: Option<Time>, createdAt: Time, updatedAt: Time)

  datatype TemplateData = TemplateData(
    name: string, description: Option<string>, createdBy: nat,
    archivedAt: Option<Time>, createdAt: Time, updatedAt: Time)

  datatype TrainingData = TrainingData(
    name: string, description: Option<string>, createdBy: nat, target: nat,
    archivedAt: Option<Time>, createdAt: Time, updatedAt: Time)

  /** A row of `template_exercises` or `training_exercises`. */
  datatype LinkData = LinkData(parent: nat, exercise: Option<nat>, orderPosition: int)

  /** A row of `template_exercise_set_variables` or `training_exercise_set_variables`. */
  datatype SetVarData = SetVarData(link: nat, setNumber: int, variable: Option<nat>, targetValue: Option<string>)

  /** A row of `photos`, keyed by a table name and a row id of that table. */
  datatype PhotoData = PhotoData(model: string, modelId: nat, url: string, key: string)

  /** The values of `users.status`. */
  datatype Status = Pending | Active | Deactivated | Archived

  function StatusText(s: Status): string
  {
    match s
    case Pending => "pending"
    case Active => "active"
    case Deactivated => "deactivated"
    case Archived => "archived"
  }

  datatype UserData = UserData(
    email: string, name: string, roleId: nat, createdBy: Option<nat>, status: Status,
    token: Option<string>, tokenExpiresAt: Option<Time>,
    password: Option<string>, passwordSetAt: Option<Time>,
    deactivatedAt: Option<Time>, archivedAt: Option<Time>,
    createdAt: Time, updatedAt: Time)

  /** A row of `user_details`; heights and weights are whole numbers here. */
  datatype DetailsData = DetailsData(
    userId: nat, birthday: Option<string>, height: Option<int>, weight: Option<int>, sex: Option<string>,
    photoUrl: Option<string>, photoKey: Option<string>, createdAt: Time, updatedAt: Time)

  // The `created_by` column of each owned table, as the guards read it.
  function CategoryOwner(d: CategoryData): Option<nat> { Some(d.createdBy) }
  function ExerciseOwner(d: ExerciseData): Option<nat> { Some(d.createdBy) }
  function VariableOwner(d: VariableData): Option<nat> { Some(d.createdBy) }
  function TemplateOwner(d: TemplateData): Option<nat> { Some(d.createdBy) }
  function TrainingOwner(d: TrainingData): Option<nat> { Some(d.createdBy) }
  function UserOwner(d: UserData): Option<nat> { d.createdBy }

  /** The whole database: one table object per SQL table. */
  class Database {
    const categories: Table<CategoryData>
    const exercises: Table<ExerciseData>
    const variables: Table<VariableData>
    const templates: Table<TemplateData>
    const templateLinks: Table<LinkData>
    const templateSetVars: Table<SetVarData>
    const trainings: Table<TrainingData>
    const trainingLinks: Table<LinkData>
    const trainingSetVars: Table<SetVarData>
    const photos: Table<PhotoData>
    const users: Table<UserData>
    const details: Table<DetailsData>

    /**
     * Every table is valid, and the two pairs of tables of the same shape
     * are distinct objects. Each resolver asks only for the group of tables
     * it writes (the catalogue, the templates, the trainings with the
     * photos, the users with their details).
     */
    ghost predicate Valid()
      reads this, categories, exercises, variables, templates, templateLinks, templateSetVars,
        trainings, trainingLinks, trainingSetVars, photos, users, details
    {
      templateLinks != trainingLinks && templateSetVars != trainingSetVars
      && CatalogueValid() && TemplatesValid() && TrainingsValid() && UsersValid()
    }

    ghost predicate CatalogueValid()
      reads this, categories, exercises, variables
    {
      categories.Valid() && exercises.Valid() && variables.Valid()
    }

    ghost predicate TemplatesValid()
      reads this, templates, templateLinks, templateSetVars
    {
      templates.Valid() && templateLinks.Valid() && templateSetVars.Valid()
    }

    ghost predicate TrainingsValid()
      reads this, trainings, trainingLinks, trainingSetVars, photos
    {
      trainings.Valid() && trainingLinks.Valid() && trainingSetVars.Valid() && photos.Valid()
    }

    ghost predicate UsersValid()
      reads this, users, details
    {
      users.Valid() && details.Valid()
    }

    /** A database over existing tables; the two pairs of tables of the same shape are distinct. */
    constructor (categories: Table<CategoryData>, exercises: Table<ExerciseData>,
                 variables: Table<VariableData>, templates: Table<TemplateData>,
                 templateLinks: Table<LinkData>, templateSetVars: Table<SetVarData>,
                 trainings: Table<TrainingData>, trainingLinks: Table<LinkData>,
                 trainingSetVars: Table<SetVarData>, photos: Table<PhotoData>,
                 users: Table<UserData>, details: Table<DetailsData>)
      requires templateLinks != trainingLinks && templateSetVars != trainingSetVars
      requires categories.Valid() && exercises.Valid() && variables.Valid()
      requires templates.Valid() && templateLinks.Valid() && templateSetVars.Valid()
      requires trainings.Valid() && trainingLinks.Valid() && trainingSetVars.Valid()
      requires photos.Valid() && users.Valid() && details.Valid()
      ensures Valid()
      ensures this.categories == categories && this.exercises == exercises && this.variables == variables
      ensures this.templates == templates && this.templateLinks == templateLinks
      ensures this.templateSetVars == templateSetVars && this.trainings == trainings
      ensures this.trainingLinks == trainingLinks && this.trainingSetVars == trainingSetVars
      ensures this.photos == photos && this.users == users && this.details == details
    {
      this.categories := categories;
      this.exercises := exercises;
      this.variables := variables;
      this.templates := templates;
      this.templateLinks := templateLinks;
      this.templateSetVars := templateSetVars;
      this.trainings := trainings;
      this.trainingLinks := trainingLinks;
      this.trainingSetVars := trainingSetVars;
      this.photos := photos;
      this.users := users;
      this.details := details;
    }
  }
}
