/**
 * The helpers of the exercise catalogue (src/exercise/utils.ts): the row
 * mapper, the lookup of exercises by category, the owner-scoped
 * duplication check and the error text.
 */
module ExerciseUtils {
  import opened Wrappers
  import opened Ids
  import opened Store
  import opened Guards
  import opened Uniqueness

  /** An exercise as the API returns it; its category is an encoded id. */
  datatype ExerciseNode = ExerciseNode(
    id: string, name: string, url: string, category: string, createdAt: Time, updatedAt: Time)

  /** `mapExerciseRow`: the columns, the id and the category encoded with their own tags. */
  function MapExerciseRow(row: Row<ExerciseData>): (n: ExerciseNode)
    ensures n.id == EncodeRowId(Exercise, row.id) && ParseRowId(Exercise, n.id) == Some(row.id)
    ensures n.category == EncodeRowId(Category, row.data.category)
    ensures ParseRowId(Category, n.category) == Some(row.data.category)
    ensures n.name == row.data.name && n.url == row.data.url
    ensures n.createdAt == row.data.createdAt && n.updatedAt == row.data.updatedAt
  {
    RowIdRoundTrip(Exercise, row.id);
    RowIdRoundTrip(Category, row.data.category);
    ExerciseNode(EncodeRowId(Exercise, row.id), row.data.name, row.data.url,
                 EncodeRowId(Category, row.data.category), row.data.createdAt, row.data.updatedAt)
  }

  /**
   * `getCategoriesExercises(categoryIds, userId)`: the caller's exercises in
   * any of the categories, archived ones included, in table order. A
   * `null` among the ids (an id that did not decode) matches nothing.
   */
  function CategoriesExercises(rows: seq<Row<ExerciseData>>, categoryIds: seq<Option<nat>>, userId: nat)
    : (r: seq<Row<ExerciseData>>)
    ensures forall i :: 0 <= i < |r| ==> r[i] in rows && Some(r[i].data.category) in categoryIds && r[i].data.createdBy == userId
    ensures forall e :: e in rows && Some(e.data.category) in categoryIds && e.data.createdBy == userId ==> e in r
  {
    var found := Select(rows, (e: Row<ExerciseData>) => Some(e.data.category) in categoryIds && e.data.createdBy == userId);
    forall e | e in rows && Some(e.data.category) in categoryIds && e.data.createdBy == userId
      ensures e in found
    {
      var k :| 0 <= k < |rows| && rows[k] == e;
    }
    found
  }

  const ExerciseExists := "Exercício já existe"
  const ExerciseNotFound := "Exercício não encontrado"

  /** The scope of the duplication check: owner and name, for exercises that are not archived. */
  function ExerciseKey(d: ExerciseData): Option<(nat, string)>
  {
    if d.archivedAt.None? then Some((d.createdBy, d.name)) else None
  }

  /**
   * `checkDuplication(name, userId, excludeId?)`: the exclusion is bound
   * only when it is truthy, and must then read as an integer; the check
   * refuses exactly when an exercise of the same owner, not archived,
   * other than the excluded one, has that very name.
   */
  function CheckDuplication(rows: seq<Row<ExerciseData>>, name: string, userId: nat, excludeId: Option<string>)
    : (r: Result<()>)
    ensures BindTruthy(excludeId).Err? ==> r == Err(InvalidInteger)
    ensures BindTruthy(excludeId).Ok? ==>
      (r.Err? <==> Clashes(rows, ExerciseKey, (userId, name), BindTruthy(excludeId).value))
    ensures BindTruthy(excludeId).Ok? && r.Err? ==> r.msg == ExerciseExists
  {
    match BindTruthy(excludeId)
    case Err(m) => Err(m)
    case Ok(exclude) =>
      var found := Select(rows, (e: Row<ExerciseData>) =>
        e.data.createdBy == userId && e.data.name == name && e.data.archivedAt.None?
        && (exclude.None? || e.id != exclude.value));
      if |found| > 0 then
        assert found[0] in rows;
        Err(ExerciseExists)
      else Ok(())
  }

  /** `errorMessage`: the text of a guard's outcome. */
  function ErrorMessage(e: ErrorKind): (r: string)
    ensures e == NotExist ==> r == ExerciseNotFound
    ensures e == NotOwner ==> r == Unauthorized
  {
    LocalizedError(ErrorValue(e), ExerciseNotFound)
  }
}
