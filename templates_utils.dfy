/**
 * The helpers of the templates module (src/templates/utils.ts): the row
 * mapper, the owner-scoped duplication check and the error text.
 */
module TemplateUtils {
  import opened Wrappers
  import opened Ids
  import opened Store
  import opened Guards
  import opened Uniqueness

  /** A template as the API returns it. */
  datatype TemplateNode = TemplateNode(
    id: string, name: string, description: Option<string>, createdBy: nat,
    archivedAt: Option<Time>, createdAt: Time, updatedAt: Time)

  /** `mapTemplateRow`: the columns, with the id encoded. */
  function MapTemplateRow(row: Row<TemplateData>): (n: TemplateNode)
    ensures n.id == EncodeRowId(Template, row.id) && ParseRowId(Template, n.id) == Some(row.id)
    ensures n.name == row.data.name && n.description == row.data.description && n.createdBy == row.data.createdBy
    ensures n.archivedAt == row.data.archivedAt && n.createdAt == row.data.createdAt && n.updatedAt == row.data.updatedAt
  {
    RowIdRoundTrip(Template, row.id);
    TemplateNode(EncodeRowId(Template, row.id), row.data.name, row.data.description, row.data.createdBy,
                 row.data.archivedAt, row.data.createdAt, row.data.updatedAt)
  }

  const TemplateExists := "Template já existe"
  const TemplateNotFound := "Template não encontrado"

  /** The scope of the duplication check: owner and name, for templates that are not archived. */
  function TemplateKey(d: TemplateData): Option<(nat, string)>
  {
    if d.archivedAt.None? then Some((d.createdBy, d.name)) else None
  }

  /**
   * `checkDuplication(name, userId, excludeId?)`: refuses exactly when a
   * template of the same owner, not archived, other than `excludeId`, has
   * that very name. It only reads the table.
   */
  function CheckDuplication(rows: seq<Row<TemplateData>>, name: string, userId: nat, excludeId: Option<nat>): (r: Result<()>)
    ensures r.Err? <==> Clashes(rows, TemplateKey, (userId, name), excludeId)
    ensures r.Err? ==> r.msg == TemplateExists
  {
    var found := Select(rows, (t: Row<TemplateData>) =>
      t.data.createdBy == userId && t.data.name == name && t.data.archivedAt.None?
      && (excludeId.None? || t.id != excludeId.value));
    if |found| > 0 then
      assert found[0] in rows;
      Err(TemplateExists)
    else Ok(())
  }

  /** `errorMessage`: the text of a guard's outcome. */
  function ErrorMessage(e: ErrorKind): (r: string)
    ensures e == NotExist ==> r == TemplateNotFound
    ensures e == NotOwner ==> r == Unauthorized
  {
    LocalizedError(ErrorValue(e), TemplateNotFound)
  }
}
