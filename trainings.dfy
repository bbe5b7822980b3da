/**
 * The trainings resolvers (src/trainings/trainings.resolvers.ts): the
 * listing for one target user, the composite create with its photo branch,
 * the target-value patch of `editTraining`, and the `TrainingExercise.sets`
 * reader.
 */
module Trainings {
  import opened Wrappers
  import opened Ids
  import opened Store
  import opened Guards
  import opened Sorting
  import opened SetGroups
  import opened Uniqueness
  import opened Composite
  import opened TrainingUtils
  import PtUserUtils

  const TargetRequired := "Id do aluno é obrigatório"

  // ---------------------------------------------------------------------
  // `trainings`

  /** The `WHERE` of the listing: not archived, the caller's, for that target user. */
  predicate Listed(t: Row<TrainingData>, userId: nat, target: nat)
  {
    t.data.archivedAt.None? && t.data.createdBy == userId && t.data.target == target
  }

  function ListedBy(userId: nat, target: nat): Row<TrainingData> -> bool
  {
    (t: Row<TrainingData>) => Listed(t, userId, target)
  }

  /** `result.rows.map(mapTrainingRow)`. */
  function MapRows(rows: seq<Row<TrainingData>>): (r: seq<TrainingNode>)
    ensures |r| == |rows| && forall i :: 0 <= i < |rows| ==> r[i] == MapTrainingRow(rows[i])
  {
    seq(|rows|, i requires 0 <= i < |rows| => MapTrainingRow(rows[i]))
  }

  /** The rows the listing returns, mapped, in table order. */
  function ListedNodes(trainings: seq<Row<TrainingData>>, userId: nat, target: nat): seq<TrainingNode>
  {
    MapRows(Select(trainings, ListedBy(userId, target)))
  }

  /** `n` is the mapping of a training of `userId` for `target` that is not archived. */
  ghost predicate FromListed(trainings: seq<Row<TrainingData>>, userId: nat, target: nat, n: TrainingNode)
  {
    exists t :: t in trainings && Listed(t, userId, target) && n == MapTrainingRow(t)
  }

  /** Every listed node is a training of `userId` for `target` that is not archived. */
  lemma ListedNodesSound(trainings: seq<Row<TrainingData>>, userId: nat, target: nat)
    ensures forall n :: n in ListedNodes(trainings, userId, target) ==> FromListed(trainings, userId, target, n)
  {
    var rows := Select(trainings, ListedBy(userId, target));
    var r := ListedNodes(trainings, userId, target);
    forall n | n in r
      ensures FromListed(trainings, userId, target, n)
    {
      var i :| 0 <= i < |r| && r[i] == n;
      assert rows[i] in trainings && Listed(rows[i], userId, target);
      assert n == MapTrainingRow(rows[i]);
    }
  }

  /** Every training of `userId` for `target` that is not archived is listed. */
  lemma ListedNodesComplete(trainings: seq<Row<TrainingData>>, userId: nat, target: nat)
    ensures forall t :: t in trainings && Listed(t, userId, target) ==> MapTrainingRow(t) in ListedNodes(trainings, userId, target)
  {
    var rows := Select(trainings, ListedBy(userId, target));
    forall t | t in trainings && Listed(t, userId, target)
      ensures MapTrainingRow(t) in ListedNodes(trainings, userId, target)
    {
      var j :| 0 <= j < |trainings| && trainings[j] == t;
      assert t in rows;
      var k :| 0 <= k < |rows| && rows[k] == t;
      assert ListedNodes(trainings, userId, target)[k] == MapTrainingRow(t);
    }
  }

  /**
   * `trainings(target_id)`: the caller must own the target user; the answer
   * is every training of the caller for that user that is not archived,
   * without paging.
   */
  function ListTrainings(users: seq<Row<UserData>>, trainings: seq<Row<TrainingData>>, ctx: Context,
                         targetId: Option<string>): (r: Result<seq<TrainingNode>>)
    ensures ctx.user.None? ==> r == Err(Unauthorized)
    ensures ctx.user.Some? && (targetId.None? || targetId.value == "") ==> r == Err(TargetRequired)
    ensures ctx.user.Some? && targetId.Some? && targetId.value != "" ==>
      var guard := OwnedTarget(users, UserOwner, DecodeId(AdminUser, targetId), ctx.user.value, PtUserUtils.ErrorMessage);
      (guard.Err? ==> r == Err(guard.msg))
      && (guard.Ok? ==> r == Ok(ListedNodes(trainings, ctx.user.value, guard.value)))
  {
    if ctx.user.None? then Err(Unauthorized)
    else if targetId.None? || targetId.value == "" then Err(TargetRequired)
    else
      match OwnedTarget(users, UserOwner, DecodeId(AdminUser, targetId), ctx.user.value, PtUserUtils.ErrorMessage)
      case Err(m) => Err(m)
      case Ok(n) => Ok(ListedNodes(trainings, ctx.user.value, n))
  }

  // ---------------------------------------------------------------------
  // `createTraining`

  /** `!name || !exercises?.length || !target_id`. */
  predicate WellFormed(name: Option<string>, exs: seq<ExerciseInput>, targetId: Option<string>)
  {
    name.Some? && name.value != "" && |exs| > 0 && targetId.Some? && targetId.value != ""
  }

  /** The photo of a training given by reference instead of by upload. */
  datatype PhotoInput = PhotoInput(url: string, key: string)

  /**
   * The transaction of `createTraining`: the training row, its links and
   * their set variables, then the photo: the upload when a file came
   * (`uploadError` is its outcome), else the given photo's row, written
   * through the pool. A failure rolls the training tables back.
   */
  method InsertTraining(trainings: Table<TrainingData>, links: Table<LinkData>, setVars: Table<SetVarData>,
                        photos: Table<PhotoData>, d: TrainingData, exs: seq<ExerciseInput>,
                        hasFile: bool, uploadError: Option<string>, photo: Option<PhotoInput>)
    returns (r: Result<Row<TrainingData>>)
    requires trainings.Valid() && links.Valid() && setVars.Valid() && photos.Valid()
    modifies trainings, links, setVars, photos
    ensures trainings.Valid() && links.Valid() && setVars.Valid() && photos.Valid()
    ensures r.Ok? <==>
      LinkRows(old(trainings.nextId), exs).Ok? && ChildVars(old(links.nextId), exs).complete
      && (hasFile ==> uploadError.None?)
    ensures r.Err? ==>
      trainings.rows == old(trainings.rows) && links.rows == old(links.rows) && setVars.rows == old(setVars.rows)
      && photos.rows == old(photos.rows)
    ensures r.Ok? ==>
      r.value == Row(old(trainings.nextId), d)
      && trainings.rows == old(trainings.rows) + [r.value]
      && links.rows == old(links.rows) + Numbered(old(links.nextId), LinkRows(r.value.id, exs).value)
      && setVars.rows == old(setVars.rows) + Numbered(old(setVars.nextId), ChildVars(old(links.nextId), exs).rows)
    ensures r.Ok? && (hasFile || photo.None?) ==> photos.rows == old(photos.rows)
    ensures r.Ok? && !hasFile && photo.Some? ==>
      photos.rows == old(photos.rows) + [Row(old(photos.nextId), PhotoData("trainings", r.value.id, photo.value.url, photo.value.key))]
  {
    // BEGIN
    var savedTrainings, savedLinks, savedVars := trainings.rows, links.rows, setVars.rows;
    var id := trainings.Insert(d);
    var children := WriteChildren(links, setVars, id, exs);
    var failure := if children.Err? then Some(children.msg) else if hasFile then uploadError else None;
    if failure.Some? {
      // ROLLBACK
      trainings.Restore(savedTrainings, old(trainings.nextId));
      links.Restore(savedLinks, old(links.nextId));
      setVars.Restore(savedVars, old(setVars.nextId));
      return Err(failure.value);
    }
    if !hasFile && photo.Some? {
      var _ := photos.Insert(PhotoData("trainings", id, photo.value.url, photo.value.key));
    }
    // COMMIT
    return Ok(Row(id, d));
  }

  /**
   * `createTraining`: the caller, the required fields and the duplication
   * check for the decoded target, then the transaction. The target user's
   * existence and ownership are not checked. A created training keeps the
   * names of each owner's trainings for one target unique.
   */
  method CreateTraining(db: Database, ctx: Context, name: Option<string>, description: Option<string>,
                        exs: seq<ExerciseInput>, targetId: Option<string>, now: Time,
                        hasFile: bool, uploadError: Option<string>, photo: Option<PhotoInput>)
    returns (r: Result<TrainingNode>)
    requires db.TrainingsValid()
    modifies db.trainings, db.trainingLinks, db.trainingSetVars, db.photos
    ensures db.TrainingsValid()
    ensures ctx.user.None? ==> r == Err(Unauthorized)
    ensures ctx.user.Some? && !WellFormed(name, exs, targetId) ==> r == Err(InvalidRequest)
    ensures ctx.user.Some? && WellFormed(name, exs, targetId) ==>
      var target := BindInt(DecodeId(AdminUser, targetId).value);
      (target.Err? ==> r == Err(InvalidInteger))
      && (target.Ok? && Clashes(old(db.trainings.rows), TrainingKey, (ctx.user.value, name.value, target.value), None) ==>
            r == Err(TrainingExists))
      && (r.Ok? <==>
            target.Ok? && !Clashes(old(db.trainings.rows), TrainingKey, (ctx.user.value, name.value, target.value), None)
            && LinkRows(old(db.trainings.nextId), exs).Ok? && ChildVars(old(db.trainingLinks.nextId), exs).complete
            && (hasFile ==> uploadError.None?))
      && (r.Ok? ==>
            var t := Row(old(db.trainings.nextId), TrainingData(name.value, description, ctx.user.value, target.value, None, now, now));
            r.value == MapTrainingRow(t) && db.trainings.rows == old(db.trainings.rows) + [t]
            && db.trainingLinks.rows == old(db.trainingLinks.rows) + Numbered(old(db.trainingLinks.nextId), LinkRows(t.id, exs).value)
            && db.trainingSetVars.rows == old(db.trainingSetVars.rows)
                                          + Numbered(old(db.trainingSetVars.nextId), ChildVars(old(db.trainingLinks.nextId), exs).rows))
    ensures r.Err? ==>
      db.trainings.rows == old(db.trainings.rows) && db.trainingLinks.rows == old(db.trainingLinks.rows)
      && db.trainingSetVars.rows == old(db.trainingSetVars.rows) && db.photos.rows == old(db.photos.rows)
    ensures UniqueBy(old(db.trainings.rows), TrainingKey) ==> UniqueBy(db.trainings.rows, TrainingKey)
  {
    var auth := RequireAuth(ctx);
    if auth.Err? {
      return Err(auth.msg);
    }
    if !WellFormed(name, exs, targetId) {
      return Err(InvalidRequest);
    }
    var numericId := DecodeId(AdminUser, targetId).value;
    var dup := CheckDuplication(db.trainings.rows, name.value, auth.value, numericId, None);
    if dup.Err? {
      return Err(dup.msg);
    }
    var target := BindInt(numericId).value;
    ghost var before := db.trainings.rows;
    var written := InsertTraining(db.trainings, db.trainingLinks, db.trainingSetVars, db.photos,
                                  TrainingData(name.value, description, auth.value, target, None, now, now),
                                  exs, hasFile, uploadError, photo);
    if written.Err? {
      return Err(written.msg);
    }
    if UniqueBy(before, TrainingKey) {
      AppendKeepsUnique(before, TrainingKey, written.value);
    }
    return Ok(MapTrainingRow(written.value));
  }

  // ---------------------------------------------------------------------
  // `editTraining`

  /**
   * A variable of `editTraining`'s input: the set-variable row id as the
   * reader gave it (a plain number, not a tagged id) and the new target.
   */
  datatype EditVariable = EditVariable(id: Option<string>, variableId: Option<string>, targetValue: Option<string>)
  datatype EditSet = EditSet(setNumber: int, variables: seq<EditVariable>)
  datatype EditExercise = EditExercise(exerciseId: Option<string>, orderPosition: int, sets: seq<EditSet>)

  function IdIs(n: nat): Row<SetVarData> -> bool
  {
    (sv: Row<SetVarData>) => sv.id == n
  }

  /** `SET target_value = $1`: the target as given, `undefined` becoming NULL. */
  function SetTarget(t: Option<string>): SetVarData -> SetVarData
  {
    (d: SetVarData) => d.(targetValue := t)
  }

  /**
   * One `UPDATE training_exercise_set_variables SET target_value = $1 WHERE
   * id = $2`: an absent id binds as NULL and matches no row; an id that is
   * not an integer fails the statement.
   */
  function PatchOne(rows: seq<Row<SetVarData>>, v: EditVariable): (r: Result<seq<Row<SetVarData>>>)
    ensures r.Err? <==> BindOptInt(v.id).Err?
    ensures r.Err? ==> r.msg == InvalidInteger
  {
    match BindOptInt(v.id)
    case Err(m) => Err(m)
    case Ok(None) => Ok(rows)
    case Ok(Some(n)) => Ok(Updated(rows, IdIs(n), SetTarget(v.targetValue)))
  }

  /** The updates in order; the first that fails stops them. */
  function PatchAll(rows: seq<Row<SetVarData>>, vs: seq<EditVariable>): Result<seq<Row<SetVarData>>>
  {
    if vs == [] then Ok(rows)
    else
      match PatchAll(rows, vs[..|vs| - 1])
      case Err(m) => Err(m)
      case Ok(done) => PatchOne(done, vs[|vs| - 1])
  }

  /** The variables of a list of sets, in nested input order. */
  function SetPatches(sets: seq<EditSet>): seq<EditVariable>
  {
    if sets == [] then [] else SetPatches(sets[..|sets| - 1]) + sets[|sets| - 1].variables
  }

  /** The variables of every set of every exercise, in nested input order: the order of the three loops. */
  function ExercisePatches(exs: seq<EditExercise>): seq<EditVariable>
  {
    if exs == [] then [] else ExercisePatches(exs[..|exs| - 1]) + SetPatches(exs[|exs| - 1].sets)
  }

  /** Running two lists of updates one after the other is running their concatenation. */
  lemma {:induction false} PatchAllAppend(rows: seq<Row<SetVarData>>, a: seq<EditVariable>, b: seq<EditVariable>)
    ensures PatchAll(rows, a + b) == (if PatchAll(rows, a).Err? then PatchAll(rows, a) else PatchAll(PatchAll(rows, a).value, b))
    decreases |b|
  {
    if b == [] {
      assert a + b == a;
    } else {
      var b' := b[..|b| - 1];
      assert (a + b)[..|a + b| - 1] == a + b';
      assert (a + b)[|a + b| - 1] == b[|b| - 1];
      PatchAllAppend(rows, a, b');
    }
  }

  /** The target a list of updates leaves on row `n`: that of the last update naming it, if any. */
  function LastTarget(vs: seq<EditVariable>, n: nat): Option<Option<string>>
  {
    if vs == [] then None
    else if BindOptInt(vs[|vs| - 1].id) == Ok(Some(n)) then Some(vs[|vs| - 1].targetValue)
    else LastTarget(vs[..|vs| - 1], n)
  }

  /**
   * What a successful run of the updates does: every row keeps its id, its
   * link, its set number and its variable, and its target is that of the
   * last update naming its id (unchanged when none does). Nothing is added
   * or removed.
   */
  lemma {:induction false} PatchAllMeaning(rows: seq<Row<SetVarData>>, vs: seq<EditVariable>)
    requires PatchAll(rows, vs).Ok?
    ensures |PatchAll(rows, vs).value| == |rows|
    ensures forall i :: 0 <= i < |rows| ==>
      var row := PatchAll(rows, vs).value[i];
      row.id == rows[i].id
      && row.data == (if LastTarget(vs, rows[i].id).Some? then rows[i].data.(targetValue := LastTarget(vs, rows[i].id).value)
                      else rows[i].data)
  {
    if vs != [] {
      PatchAllMeaning(rows, vs[..|vs| - 1]);
    }
  }

  /** The updates fail exactly when some listed id is present and is not an integer. */
  lemma {:induction false} PatchAllFails(rows: seq<Row<SetVarData>>, vs: seq<EditVariable>)
    ensures PatchAll(rows, vs).Err? <==> exists j :: 0 <= j < |vs| && BindOptInt(vs[j].id).Err?
    ensures PatchAll(rows, vs).Err? ==> PatchAll(rows, vs).msg == InvalidInteger
  {
    if vs != [] {
      var front := vs[..|vs| - 1];
      PatchAllFails(rows, front);
      if PatchAll(rows, front).Err? {
        var j :| 0 <= j < |front| && BindOptInt(front[j].id).Err?;
        assert vs[j] == front[j];
      } else if PatchAll(rows, vs).Ok? {
        forall j | 0 <= j < |vs|
          ensures BindOptInt(vs[j].id).Ok?
        {
          if j < |front| {
            assert vs[j] == front[j];
          }
        }
      }
    }
  }

  /** The innermost loop: one update per variable of a set. */
  method PatchVariables(setVars: Table<SetVarData>, vs: seq<EditVariable>) returns (r: Result<()>)
    requires setVars.Valid()
    modifies setVars
    ensures setVars.Valid() && setVars.nextId == old(setVars.nextId)
    ensures r.Ok? <==> PatchAll(old(setVars.rows), vs).Ok?
    ensures r.Err? ==> r.msg == InvalidInteger
    ensures r.Ok? ==> setVars.rows == PatchAll(old(setVars.rows), vs).value
  {
    var i := 0;
    while i < |vs|
      invariant 0 <= i <= |vs|
      invariant setVars.Valid() && setVars.nextId == old(setVars.nextId)
      invariant PatchAll(old(setVars.rows), vs[..i]) == Ok(setVars.rows)
    {
      assert vs[..i + 1][..i] == vs[..i];
      var id := BindOptInt(vs[i].id);
      if id.Err? {
        PatchAllAppend(old(setVars.rows), vs[..i + 1], vs[i + 1..]);
        assert vs[..i + 1] + vs[i + 1..] == vs;
        return Err(id.msg);
      }
      if id.value.Some? {
        setVars.UpdateWhere(IdIs(id.value.value), SetTarget(vs[i].targetValue));
      }
      i := i + 1;
    }
    assert vs[..i] == vs;
    return Ok(());
  }

  /** The middle loop: the variables of each set in turn. */
  method PatchSets(setVars: Table<SetVarData>, sets: seq<EditSet>) returns (r: Result<()>)
    requires setVars.Valid()
    modifies setVars
    ensures setVars.Valid() && setVars.nextId == old(setVars.nextId)
    ensures r.Ok? <==> PatchAll(old(setVars.rows), SetPatches(sets)).Ok?
    ensures r.Err? ==> r.msg == InvalidInteger
    ensures r.Ok? ==> setVars.rows == PatchAll(old(setVars.rows), SetPatches(sets)).value
  {
    var i := 0;
    while i < |sets|
      invariant 0 <= i <= |sets|
      invariant setVars.Valid() && setVars.nextId == old(setVars.nextId)
      invariant PatchAll(old(setVars.rows), SetPatches(sets[..i])) == Ok(setVars.rows)
    {
      assert sets[..i + 1][..i] == sets[..i];
      PatchAllAppend(old(setVars.rows), SetPatches(sets[..i]), sets[i].variables);
      var done := PatchVariables(setVars, sets[i].variables);
      if done.Err? {
        SetPatchesSplit(sets, i + 1);
        PatchAllAppend(old(setVars.rows), SetPatches(sets[..i + 1]), SetPatches(sets[i + 1..]));
        return done;
      }
      i := i + 1;
    }
    assert sets[..i] == sets;
    return Ok(());
  }

  lemma {:induction false} SetPatchesSplit(sets: seq<EditSet>, k: nat)
    requires k <= |sets|
    ensures SetPatches(sets) == SetPatches(sets[..k]) + SetPatches(sets[k..])
    decreases |sets|
  {
    if k < |sets| {
      var front := sets[..|sets| - 1];
      assert front[..k] == sets[..k];
      assert sets[k..][..|sets[k..]| - 1] == front[k..];
      SetPatchesSplit(front, k);
    } else {
      assert sets[..k] == sets;
    }
  }

  lemma {:induction false} ExercisePatchesSplit(exs: seq<EditExercise>, k: nat)
    requires k <= |exs|
    ensures ExercisePatches(exs) == ExercisePatches(exs[..k]) + ExercisePatches(exs[k..])
    decreases |exs|
  {
    if k < |exs| {
      var front := exs[..|exs| - 1];
      assert front[..k] == exs[..k];
      assert exs[k..][..|exs[k..]| - 1] == front[k..];
      ExercisePatchesSplit(front, k);
    } else {
      assert exs[..k] == exs;
    }
  }

  /** The outer loop: the sets of each exercise in turn. */
  method PatchExercises(setVars: Table<SetVarData>, exs: seq<EditExercise>) returns (r: Result<()>)
    requires setVars.Valid()
    modifies setVars
    ensures setVars.Valid() && setVars.nextId == old(setVars.nextId)
    ensures r.Ok? <==> PatchAll(old(setVars.rows), ExercisePatches(exs)).Ok?
    ensures r.Err? ==> r.msg == InvalidInteger
    ensures r.Ok? ==> setVars.rows == PatchAll(old(setVars.rows), ExercisePatches(exs)).value
  {
    var i := 0;
    while i < |exs|
      invariant 0 <= i <= |exs|
      invariant setVars.Valid() && setVars.nextId == old(setVars.nextId)
      invariant PatchAll(old(setVars.rows), ExercisePatches(exs[..i])) == Ok(setVars.rows)
    {
      assert exs[..i + 1][..i] == exs[..i];
      PatchAllAppend(old(setVars.rows), ExercisePatches(exs[..i]), SetPatches(exs[i].sets));
      var done := PatchSets(setVars, exs[i].sets);
      if done.Err? {
        ExercisePatchesSplit(exs, i + 1);
        PatchAllAppend(old(setVars.rows), ExercisePatches(exs[..i + 1]), ExercisePatches(exs[i + 1..]));
        return done;
      }
      i := i + 1;
    }
    assert exs[..i] == exs;
    return Ok(());
  }

  /** BEGIN, the updates, then COMMIT, or ROLLBACK when one fails. */
  method PatchInTransaction(setVars: Table<SetVarData>, exs: seq<EditExercise>) returns (r: Result<()>)
    requires setVars.Valid()
    modifies setVars
    ensures setVars.Valid()
    ensures r.Ok? <==> PatchAll(old(setVars.rows), ExercisePatches(exs)).Ok?
    ensures r.Err? ==> r.msg == InvalidInteger && setVars.rows == old(setVars.rows)
    ensures r.Ok? ==> setVars.rows == PatchAll(old(setVars.rows), ExercisePatches(exs)).value
  {
    var saved := setVars.rows;
    r := PatchExercises(setVars, exs);
    if r.Err? {
      setVars.Restore(saved, old(setVars.nextId));
    }
  }

  /**
   * `editTraining`: the caller, the required fields and the ownership of the
   * training, then in one transaction the target-value updates, then the
   * training row read back. A failing update rolls the set variables back.
   * The listed row ids are not checked against the training.
   */
  method EditTraining(db: Database, ctx: Context, trainingId: Option<string>, exs: seq<EditExercise>)
    returns (r: Result<TrainingNode>)
    requires db.TrainingsValid()
    modifies db.trainingSetVars
    ensures db.TrainingsValid()
    ensures ctx.user.None? ==> r == Err(Unauthorized)
    ensures ctx.user.Some? && (|exs| == 0 || trainingId.None? || trainingId.value == "") ==> r == Err(InvalidRequest)
    ensures ctx.user.Some? && |exs| > 0 && trainingId.Some? && trainingId.value != "" ==>
      var guard := OwnedTarget(db.trainings.rows, TrainingOwner, DecodeId(Training, trainingId), ctx.user.value, ErrorMessage);
      var patched := PatchAll(old(db.trainingSetVars.rows), ExercisePatches(exs));
      (guard.Err? ==> r == Err(guard.msg))
      && (guard.Ok? && patched.Err? ==> r == Err(InvalidInteger))
      && (guard.Ok? && patched.Ok? ==>
            r.Ok? && db.trainingSetVars.rows == patched.value
            && ReadBack(db.trainings.rows, guard.value, r.value))
    ensures r.Err? ==> db.trainingSetVars.rows == old(db.trainingSetVars.rows)
  {
    var auth := RequireAuth(ctx);
    if auth.Err? {
      return Err(auth.msg);
    }
    if |exs| == 0 || trainingId.None? || trainingId.value == "" {
      return Err(InvalidRequest);
    }
    var guard := OwnedTarget(db.trainings.rows, TrainingOwner, DecodeId(Training, trainingId), auth.value, ErrorMessage);
    if guard.Err? {
      return Err(guard.msg);
    }
    var done := PatchInTransaction(db.trainingSetVars, exs);
    if done.Err? {
      return Err(done.msg);
    }
    // SELECT * FROM trainings WHERE id = $1, then COMMIT.
    var found := Select(db.trainings.rows, (t: Row<TrainingData>) => t.id == guard.value);
    ghost var k :| 0 <= k < |db.trainings.rows| && db.trainings.rows[k].id == guard.value
                   && TrainingOwner(db.trainings.rows[k].data) == Some(auth.value);
    assert db.trainings.rows[k] in found;
    assert found[0] in db.trainings.rows && found[0].id == guard.value;
    return Ok(MapTrainingRow(found[0]));
  }

  /** `n` is the mapping of the training row whose id is `id`. */
  ghost predicate ReadBack(trainings: seq<Row<TrainingData>>, id: nat, n: TrainingNode)
  {
    exists t :: t in trainings && t.id == id && n == MapTrainingRow(t)
  }

  // ---------------------------------------------------------------------
  // `TrainingExercise.sets`

  /** One entry of a set: the row id (as a plain number), the variable and its target value. */
  datatype TrainingSetVariable = TrainingSetVariable(id: nat, variable: VariableRef, targetValue: Option<string>)

  /** `ev.name ASC` on entries. */
  predicate NameLe(a: TrainingSetVariable, b: TrainingSetVariable)
  {
    NullsLastLe(a.variable.name, b.variable.name)
  }

  lemma NameLeTotal()
    ensures TotalPreorder(NameLe)
  {
    NullsLastTotal();
    forall a: TrainingSetVariable, b: TrainingSetVariable
      ensures NameLe(a, b) || NameLe(b, a)
    {
      assert NullsLastLe(a.variable.name, b.variable.name) || NullsLastLe(b.variable.name, a.variable.name);
    }
    forall a: TrainingSetVariable, b: TrainingSetVariable, c: TrainingSetVariable | NameLe(a, b) && NameLe(b, c)
      ensures NameLe(a, c)
    {
      assert NullsLastLe(a.variable.name, c.variable.name);
    }
  }

  /** The rows of the reader's query, keyed by set number, in table order. */
  function SetEntries(setVars: seq<Row<SetVarData>>, variables: seq<Row<VariableData>>, link: Option<nat>)
    : (r: seq<(int, TrainingSetVariable)>)
    ensures link.None? ==> r == []
    ensures link.Some? ==> |r| == |JoinedRows(setVars, variables, link.value)|
    ensures link.Some? ==> forall i :: 0 <= i < |r| ==>
      var j := JoinedRows(setVars, variables, link.value)[i];
      r[i] == (j.setNumber, TrainingSetVariable(j.rowId, VariableRefOf(j.variable), j.targetValue))
  {
    if link.None? then []
    else
      var js := JoinedRows(setVars, variables, link.value);
      seq(|js|, i requires 0 <= i < |js| =>
        (js[i].setNumber, TrainingSetVariable(js[i].rowId, VariableRefOf(js[i].variable), js[i].targetValue)))
  }

  /**
   * `sets(parent)`: the set-variable rows of one training exercise, joined
   * with their variables, ordered by set number then variable name, and
   * grouped into one set per set number.
   */
  method TrainingSets(db: Database, parentId: string) returns (r: Result<seq<SetGroup<TrainingSetVariable>>>)
    ensures r.Err? <==> LinkParam(TrainingExercises, parentId).Err?
    ensures r.Err? ==> r.msg == InvalidInteger
    ensures r.Ok? ==>
      IsGrouping(r.value, SortBy(SetEntries(db.trainingSetVars.rows, db.variables.rows,
                                            LinkParam(TrainingExercises, parentId).value), ByKeyThen(NameLe)))
  {
    var link := LinkParam(TrainingExercises, parentId);
    if link.Err? {
      return Err(link.msg);
    }
    var rows := SortBy(SetEntries(db.trainingSetVars.rows, db.variables.rows, link.value), ByKeyThen(NameLe));
    var groups := GroupBySetNumber(rows);
    return Ok(groups);
  }

  /**
   * What the reader promises: set numbers strictly ascending, the variables
   * of each set in name order, and every row of the query in exactly one set.
   */
  lemma TrainingSetsOrdered(groups: seq<SetGroup<TrainingSetVariable>>, entries: seq<(int, TrainingSetVariable)>)
    requires IsGrouping(groups, SortBy(entries, ByKeyThen(NameLe)))
    ensures SetsAscending(groups)
    ensures SetsSorted(groups, NameLe)
    ensures SumSizes(SortBy(entries, ByKeyThen(NameLe)), DistinctKeys(SortBy(entries, ByKeyThen(NameLe)))) == |entries|
  {
    NameLeTotal();
    SortedGroupsOrdered(groups, entries, NameLe);
  }
}
