/**
 * The helpers of the managed-user module (src/pt_user/utils.ts): the row
 * mapper, the owner-scoped e-mail duplication check and the error text.
 */
module PtUserUtils {
  import opened Wrappers
  import opened Text
  import opened Ids
  import opened Store
  import opened Guards
  import opened Uniqueness

  /** A managed user as the API returns it (the camelCase aliases of the columns). */
  datatype UserNode = UserNode(
    id: string, email: string, name: string, roleId: nat, status: string, createdBy: Option<nat>,
    registrationToken: Option<string>, registrationTokenExpiresAt: Option<Time>, passwordSetAt: Option<Time>,
    deactivatedAt: Option<Time>, archivedAt: Option<Time>, createdAt: Time, updatedAt: Time)

  /** `mapUserRow`: the columns under their aliases, the id encoded and the status upper-cased. */
  function MapUserRow(row: Row<UserData>): (n: UserNode)
    ensures n.id == EncodeRowId(AdminUser, row.id) && ParseRowId(AdminUser, n.id) == Some(row.id)
    ensures n.status == ToUpper(StatusText(row.data.status))
    ensures n.email == row.data.email && n.name == row.data.name && n.roleId == row.data.roleId
    ensures n.createdBy == row.data.createdBy && n.registrationToken == row.data.token
    ensures n.registrationTokenExpiresAt == row.data.tokenExpiresAt && n.passwordSetAt == row.data.passwordSetAt
    ensures n.deactivatedAt == row.data.deactivatedAt && n.archivedAt == row.data.archivedAt
    ensures n.createdAt == row.data.createdAt && n.updatedAt == row.data.updatedAt
  {
    RowIdRoundTrip(AdminUser, row.id);
    UserNode(EncodeRowId(AdminUser, row.id), row.data.email, row.data.name, row.data.roleId,
             ToUpper(StatusText(row.data.status)), row.data.createdBy, row.data.token, row.data.tokenExpiresAt,
             row.data.passwordSetAt, row.data.deactivatedAt, row.data.archivedAt, row.data.createdAt, row.data.updatedAt)
  }

  /** The four statuses read back as the four distinct upper-case words of the API. */
  lemma StatusNames()
    ensures ToUpper(StatusText(Pending)) == "PENDING" && ToUpper(StatusText(Active)) == "ACTIVE"
    ensures ToUpper(StatusText(Deactivated)) == "DEACTIVATED" && ToUpper(StatusText(Archived)) == "ARCHIVED"
  {
    assert ToUpper("pending") == "PENDING";
    assert ToUpper("active") == "ACTIVE";
    assert ToUpper("deactivated") == "DEACTIVATED";
    assert ToUpper("archived") == "ARCHIVED";
  }

  const EmailExists := "Já existe um aluno com esse e-mail"
  const UserNotFound := "Aluno não encontrado"

  /**
   * The scope of the duplication check: creator and e-mail, for users that
   * are not archived. A user without a creator never matches `created_by = $1`.
   */
  function UserKey(d: UserData): Option<(nat, string)>
  {
    if d.archivedAt.None? && d.createdBy.Some? then Some((d.createdBy.value, d.email)) else None
  }

  /**
   * `checkDuplication(email, userId, excludeId?)`: refuses exactly when a
   * user the caller created, not archived, other than `excludeId`, has that
   * very e-mail. It only reads the table.
   */
  function CheckDuplication(rows: seq<Row<UserData>>, email: string, userId: nat, excludeId: Option<nat>): (r: Result<()>)
    ensures r.Err? <==> Clashes(rows, UserKey, (userId, email), excludeId)
    ensures r.Err? ==> r.msg == EmailExists
  {
    var found := Select(rows, (u: Row<UserData>) =>
      u.data.createdBy == Some(userId) && u.data.email == email && u.data.archivedAt.None?
      && (excludeId.None? || u.id != excludeId.value));
    if |found| > 0 then
      assert found[0] in rows;
      Err(EmailExists)
    else Ok(())
  }

  /** `errorMessage`: the text of a guard's outcome. */
  function ErrorMessage(e: ErrorKind): (r: string)
    ensures e == NotExist ==> r == UserNotFound
    ensures e == NotOwner ==> r == Unauthorized
  {
    LocalizedError(ErrorValue(e), UserNotFound)
  }
}
