/** The row mapper of the user-details module (src/aluno/utils.ts). */
module AlunoUtils {
  import opened Wrappers
  import opened Ids
  import opened Store

  /** A `user_details` row as the API returns it: both ids encoded, the photo columns under their aliases. */
  datatype DetailsNode = DetailsNode(
    id: string, userId: string, birthday: Option<string>, height: Option<int>, weight: Option<int>,
    sex: Option<string>, photographyUrl: Option<string>, photographyKey: Option<string>,
    createdAt: Time, updatedAt: Time)

  /**
   * `mapAlunoRow`: the row id under the `USER-DETAILS` tag, the user id under
   * the `USER` tag, the other columns as they are.
   */
  function MapAlunoRow(row: Row<DetailsData>): (n: DetailsNode)
    ensures n.id == EncodeRowId(UserDetails, row.id) && ParseRowId(UserDetails, n.id) == Some(row.id)
    ensures n.userId == EncodeRowId(AdminUser, row.data.userId) && ParseRowId(AdminUser, n.userId) == Some(row.data.userId)
    ensures n.photographyUrl == row.data.photoUrl && n.photographyKey == row.data.photoKey
    ensures n.createdAt == row.data.createdAt && n.updatedAt == row.data.updatedAt
    ensures n.birthday == row.data.birthday && n.height == row.data.height
    ensures n.weight == row.data.weight && n.sex == row.data.sex
  {
    RowIdRoundTrip(UserDetails, row.id);
    RowIdRoundTrip(AdminUser, row.data.userId);
    DetailsNode(EncodeRowId(UserDetails, row.id), EncodeRowId(AdminUser, row.data.userId), row.data.birthday,
                row.data.height, row.data.weight, row.data.sex, row.data.photoUrl, row.data.photoKey,
                row.data.createdAt, row.data.updatedAt)
  }

  /** The first row of `user_details` for a user, as `WHERE user_id = $1` reads it. */
  function DetailsOf(rows: seq<Row<DetailsData>>, userId: nat): (r: Option<Row<DetailsData>>)
    ensures r.Some? <==> exists i :: 0 <= i < |rows| && rows[i].data.userId == userId
    ensures r.Some? ==> r.value in rows && r.value.data.userId == userId
  {
    var found := Select(rows, (d: Row<DetailsData>) => d.data.userId == userId);
    if |found| == 0 then None
    else
      assert found[0] in rows;
      Some(found[0])
  }
}
