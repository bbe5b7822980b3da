/**
 * The authentication check and the two existence guards (src/user/utils.ts),
 * and the localised message every resolver module derives from a guard's
 * outcome. The guards only read a table.
 */
module Guards {
  import opened Wrappers
  import opened Text
  import opened Ids
  import opened Store

  /** The request context: the numeric id carried by a verified token, if any. */
  datatype Context = Context(user: Option<nat>)

  const Unauthorized := "Não autorizado"

  /** The refusal of a mutation whose required fields are missing or empty. */
  const InvalidRequest := "Pedido inválido"

  /** What a resolver without `requireAuth` meets when it reads `context.user.id` with no user. */
  const NoUserCrash := "Cannot read properties of undefined (reading 'id')"

  /** `requireAuth(context)`: the caller's id, or the refusal. */
  function RequireAuth(ctx: Context): (r: Result<nat>)
    ensures r.Err? <==> ctx.user.None?
    ensures r.Err? ==> r.msg == Unauthorized
    ensures r.Ok? ==> Some(r.value) == ctx.user
  {
    match ctx.user
    case None => Err(Unauthorized)
    case Some(id) => Ok(id)
  }

  /** Some row has this id and this owner. */
  predicate OwnedRowExists<F>(rows: seq<Row<F>>, ownerOf: F -> Option<nat>, id: nat, userId: nat)
  {
    exists i :: 0 <= i < |rows| && rows[i].id == id && ownerOf(rows[i].data) == Some(userId)
  }

  /** Some row has this id. */
  predicate RowExists<F>(rows: seq<Row<F>>, id: nat)
  {
    exists i :: 0 <= i < |rows| && rows[i].id == id
  }

  /**
   * `checkExistenceAndOwnership(type, objectId, userId)`: one lookup on id
   * and owner together, then a comparison of the returned owner with the
   * caller. A decoded id that is not an integer makes the lookup itself
   * fail; a `null` id matches no row.
   */
  function CheckExistenceAndOwnership<F>(rows: seq<Row<F>>, ownerOf: F -> Option<nat>,
                                         objectId: Option<string>, userId: nat): (r: Result<Option<ErrorKind>>)
    ensures r.Err? <==> objectId.Some? && ParseNat(objectId.value).None?
    ensures r.Err? ==> r.msg == InvalidInteger
    ensures r == Ok(None) <==>
      objectId.Some? && ParseNat(objectId.value).Some?
      && OwnedRowExists(rows, ownerOf, ParseNat(objectId.value).value, userId)
    ensures r != Ok(Some(NotOwner))
  {
    match BindOptInt(objectId)
    case Err(m) => Err(m)
    case Ok(None) => Ok(Some(NotExist))
    case Ok(Some(id)) =>
      var found := Select(rows, (row: Row<F>) => row.id == id && ownerOf(row.data) == Some(userId));
      if |found| == 0 then
        Ok(Some(NotExist))
      else if ownerOf(found[0].data) != Some(userId) then Ok(Some(NotOwner))
      else
        assert found[0] in rows;
        Ok(None)
  }

  /** A row owned by someone else is reported as missing, never as foreign. */
  lemma ForeignRowIsNotExist<F>(rows: seq<Row<F>>, ownerOf: F -> Option<nat>, id: nat, userId: nat)
    requires IdsAscending(rows)
    requires exists i :: 0 <= i < |rows| && rows[i].id == id && ownerOf(rows[i].data) != Some(userId)
    ensures CheckExistenceAndOwnership(rows, ownerOf, Some(NatToString(id)), userId) == Ok(Some(NotExist))
  {
    ParseNatToString(id);
  }

  /** `checkExistence(type, objectId, userId)`: the same lookup on id alone; `userId` plays no part. */
  function CheckExistence<F>(rows: seq<Row<F>>, objectId: Option<string>, userId: nat): (r: Result<Option<ErrorKind>>)
    ensures r.Err? <==> objectId.Some? && ParseNat(objectId.value).None?
    ensures r == Ok(None) <==>
      objectId.Some? && ParseNat(objectId.value).Some? && RowExists(rows, ParseNat(objectId.value).value)
    ensures r != Ok(Some(NotOwner))
  {
    match BindOptInt(objectId)
    case Err(m) => Err(m)
    case Ok(None) => Ok(Some(NotExist))
    case Ok(Some(id)) =>
      var found := Select(rows, (row: Row<F>) => row.id == id);
      if |found| == 0 then
        Ok(Some(NotExist))
      else
        assert found[0] in rows;
        Ok(None)
  }

  /** The result of `checkExistence` does not depend on the caller. */
  lemma CheckExistenceIgnoresCaller<F>(rows: seq<Row<F>>, objectId: Option<string>, u1: nat, u2: nat)
    ensures CheckExistence(rows, objectId, u1) == CheckExistence(rows, objectId, u2)
  {
  }

  /**
   * The `errorMessage` switch every resolver module has, over the enum's
   * string value: the module's own not-found text, the shared refusal, and
   * "Erro" for any other value.
   */
  function LocalizedError(code: string, notFound: string): (r: string)
    ensures code == ErrorValue(NotExist) ==> r == notFound
    ensures code == ErrorValue(NotOwner) ==> r == Unauthorized
    ensures code != ErrorValue(NotExist) && code != ErrorValue(NotOwner) ==> r == "Erro"
  {
    if code == "NOT_EXIST" then notFound
    else if code == "NOT_OWNER" then Unauthorized
    else "Erro"
  }

  /**
   * The guard as a resolver uses it: `if (error) throw new Error(errorMessage(error))`,
   * and on success the row id the decoded text names.
   */
  function OwnedTarget<F>(rows: seq<Row<F>>, ownerOf: F -> Option<nat>, objectId: Option<string>, userId: nat,
                          message: ErrorKind -> string): (r: Result<nat>)
    ensures r.Ok? <==> CheckExistenceAndOwnership(rows, ownerOf, objectId, userId) == Ok(None)
    ensures r.Ok? ==> objectId.Some? && ParseNat(objectId.value) == Some(r.value)
                      && OwnedRowExists(rows, ownerOf, r.value, userId)
    ensures r.Err? ==> r.msg == InvalidInteger || r.msg == message(NotExist)
  {
    match CheckExistenceAndOwnership(rows, ownerOf, objectId, userId)
    case Err(m) => Err(m)
    case Ok(Some(e)) => Err(message(e))
    case Ok(None) => Ok(ParseNat(objectId.value).value)
  }
}
