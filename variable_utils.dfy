/**
 * The helpers of the exercise variables (src/exercise_categories/utils.ts):
 * the row mapper, the owner-scoped duplication check and the error text.
 */
module VariableUtils {
  import opened Wrappers
  import opened Ids
  import opened Store
  import opened Guards
  import opened Uniqueness

  /** An exercise variable as the API returns it: the row's columns, with the id encoded. */
  datatype VariableNode = VariableNode(
    id: string, name: string, unit: string, description: Option<string>, createdBy: nat,
    archivedAt: Option<Time>, createdAt: Time, updatedAt: Time)

  /** `mapExerciseVariableRow`: every column of the row, and the id under the `EXERCISE-VARIABLES` tag. */
  function MapExerciseVariableRow(row: Row<VariableData>): (n: VariableNode)
    ensures n.id == EncodeRowId(ExerciseVariables, row.id) && ParseRowId(ExerciseVariables, n.id) == Some(row.id)
    ensures n.name == row.data.name && n.unit == row.data.unit && n.description == row.data.description
    ensures n.createdBy == row.data.createdBy && n.archivedAt == row.data.archivedAt
    ensures n.createdAt == row.data.createdAt && n.updatedAt == row.data.updatedAt
  {
    RowIdRoundTrip(ExerciseVariables, row.id);
    VariableNode(EncodeRowId(ExerciseVariables, row.id), row.data.name, row.data.unit, row.data.description,
                 row.data.createdBy, row.data.archivedAt, row.data.createdAt, row.data.updatedAt)
  }

  const VariableExists := "Variavel já existe"
  const VariableNotFound := "Variavel não encontrado"

  /** The scope of the duplication check: owner and name, for variables that are not archived. */
  function VariableKey(d: VariableData): Option<(nat, string)>
  {
    if d.archivedAt.None? then Some((d.createdBy, d.name)) else None
  }

  /**
   * `checkDuplication(name, userId, excludeId?)`: the exclusion is bound
   * only when it is truthy, and must then read as an integer; the check
   * refuses exactly when a variable of the same owner, not archived, other
   * than the excluded one, has that very name.
   */
  function CheckDuplication(rows: seq<Row<VariableData>>, name: string, userId: nat, excludeId: Option<string>)
    : (r: Result<()>)
    ensures BindTruthy(excludeId).Err? ==> r == Err(InvalidInteger)
    ensures BindTruthy(excludeId).Ok? ==>
      (r.Err? <==> Clashes(rows, VariableKey, (userId, name), BindTruthy(excludeId).value))
    ensures BindTruthy(excludeId).Ok? && r.Err? ==> r.msg == VariableExists
  {
    match BindTruthy(excludeId)
    case Err(m) => Err(m)
    case Ok(exclude) =>
      var found := Select(rows, (v: Row<VariableData>) =>
        v.data.createdBy == userId && v.data.name == name && v.data.archivedAt.None?
        && (exclude.None? || v.id != exclude.value));
      if |found| > 0 then
        assert found[0] in rows;
        Err(VariableExists)
      else Ok(())
  }

  /** `errorMessage`: the text of a guard's outcome. */
  function ErrorMessage(e: ErrorKind): (r: string)
    ensures e == NotExist ==> r == VariableNotFound
    ensures e == NotOwner ==> r == Unauthorized
  {
    LocalizedError(ErrorValue(e), VariableNotFound)
  }
}
