/**
 * The helpers of the trainings module (src/trainings/utils.ts): the row
 * mapper, the duplication check scoped by owner and target, and the error
 * text.
 */
module TrainingUtils {
  import opened Wrappers
  import opened Ids
  import opened Store
  import opened Guards
  import opened Uniqueness

  /** A training as the API returns it. */
  datatype TrainingNode = TrainingNode(
    id: string, name: string, description: Option<string>, createdBy: nat, target: nat,
    archivedAt: Option<Time>, createdAt: Time, updatedAt: Time)

  /** `mapTrainingRow`: the columns, with the id encoded. */
  function MapTrainingRow(row: Row<TrainingData>): (n: TrainingNode)
    ensures n.id == EncodeRowId(Training, row.id) && ParseRowId(Training, n.id) == Some(row.id)
    ensures n.name == row.data.name && n.description == row.data.description
    ensures n.createdBy == row.data.createdBy && n.target == row.data.target
    ensures n.archivedAt == row.data.archivedAt && n.createdAt == row.data.createdAt && n.updatedAt == row.data.updatedAt
  {
    RowIdRoundTrip(Training, row.id);
    TrainingNode(EncodeRowId(Training, row.id), row.data.name, row.data.description, row.data.createdBy,
                 row.data.target, row.data.archivedAt, row.data.createdAt, row.data.updatedAt)
  }

  const TrainingExists := "Treino já existe"
  const TrainingNotFound := "Treino não encontrado"

  /** The scope of the duplication check: owner, name and target user, for trainings that are not archived. */
  function TrainingKey(d: TrainingData): Option<(nat, string, nat)>
  {
    if d.archivedAt.None? then Some((d.createdBy, d.name, d.target)) else None
  }

  /**
   * `checkDuplication(name, userId, target_id, excludeId?)`: the target is
   * text bound to `training_target`, so text that is not an integer fails
   * the query; otherwise it refuses exactly when a training of the same
   * owner and target, not archived, other than `excludeId`, has that name.
   */
  function CheckDuplication(rows: seq<Row<TrainingData>>, name: string, userId: nat, target: string,
                            excludeId: Option<nat>): (r: Result<()>)
    ensures BindInt(target).Err? ==> r == Err(InvalidInteger)
    ensures BindInt(target).Ok? ==>
      (r.Err? <==> Clashes(rows, TrainingKey, (userId, name, BindInt(target).value), excludeId))
    ensures BindInt(target).Ok? && r.Err? ==> r.msg == TrainingExists
  {
    match BindInt(target)
    case Err(m) => Err(m)
    case Ok(t) =>
      var found := Select(rows, (row: Row<TrainingData>) =>
        row.data.createdBy == userId && row.data.name == name && row.data.archivedAt.None?
        && row.data.target == t && (excludeId.None? || row.id != excludeId.value));
      if |found| > 0 then
        assert found[0] in rows;
        Err(TrainingExists)
      else Ok(())
  }

  /** The same name is free for another target of the same owner. */
  lemma SameNameOtherTarget(rows: seq<Row<TrainingData>>, name: string, userId: nat, t1: nat, t2: nat)
    requires t1 != t2
    requires forall i :: 0 <= i < |rows| ==> rows[i].data.target == t1
    ensures !Clashes(rows, TrainingKey, (userId, name, t2), None)
  {
  }

  /** `errorMessage`: the text of a guard's outcome. */
  function ErrorMessage(e: ErrorKind): (r: string)
    ensures e == NotExist ==> r == TrainingNotFound
    ensures e == NotOwner ==> r == Unauthorized
  {
    LocalizedError(ErrorValue(e), TrainingNotFound)
  }
}
