/**
 * The helpers of the category hierarchy (src/category/utils.ts): the row
 * mapper, the duplication check scoped by owner and parent, the one-level
 * gathering of subcategories, and the error text.
 */
module CategoryUtils {
  import opened Wrappers
  import opened Ids
  import opened Store
  import opened Guards
  import opened Uniqueness

  /** A category as the API returns it, with the subcategories the resolver attached. */
  datatype CategoryNode = CategoryNode(
    id: string, name: string, createdAt: Time, updatedAt: Time,
    parentCategory: Option<string>, subcategories: seq<CategoryNode>)

  /** `row.parent_category ? … : null`: a parent of 0 is as falsy as NULL. */
  predicate HasParent(d: CategoryData)
  {
    d.parent.Some? && d.parent.value != 0
  }

  /** `mapCategoryRow(row, subcategories)`: the id and the parent encoded, the subcategories as given. */
  function MapCategoryRow(row: Row<CategoryData>, subcategories: seq<CategoryNode>): (n: CategoryNode)
    ensures n.id == EncodeRowId(Category, row.id) && ParseRowId(Category, n.id) == Some(row.id)
    ensures n.parentCategory.Some? <==> HasParent(row.data)
    ensures n.parentCategory.Some? ==>
      n.parentCategory.value == EncodeRowId(Category, row.data.parent.value)
      && ParseRowId(Category, n.parentCategory.value) == row.data.parent
    ensures n.name == row.data.name && n.createdAt == row.data.createdAt && n.updatedAt == row.data.updatedAt
    ensures n.subcategories == subcategories
  {
    RowIdRoundTrip(Category, row.id);
    if HasParent(row.data) then
      RowIdRoundTrip(Category, row.data.parent.value);
      CategoryNode(EncodeRowId(Category, row.id), row.data.name, row.data.createdAt, row.data.updatedAt,
                   Some(EncodeRowId(Category, row.data.parent.value)), subcategories)
    else
      CategoryNode(EncodeRowId(Category, row.id), row.data.name, row.data.createdAt, row.data.updatedAt,
                   None, subcategories)
  }

  const CategoryExists := "Categoria já existe"
  const CategoryNotFound := "Categoria não encontrada"

  /** `errorMessage`: the text of a guard's outcome. */
  function ErrorMessage(e: ErrorKind): (r: string)
    ensures e == NotExist ==> r == CategoryNotFound
    ensures e == NotOwner ==> r == Unauthorized
  {
    LocalizedError(ErrorValue(e), CategoryNotFound)
  }

  /**
   * The scope of the duplication check: owner, name and parent (`None` for
   * the root level), for categories that are not archived.
   */
  function CategoryKey(d: CategoryData): Option<(nat, string, Option<nat>)>
  {
    if d.archivedAt.None? then Some((d.createdBy, d.name, d.parent)) else None
  }

  /**
   * `checkDuplication(name, parentCategory, userId, excludeId?)`: a falsy
   * parent means the root level (`parent_category IS NULL`), a truthy one is
   * bound as `$3`; a truthy exclusion is bound after it. Any bound id that is
   * not an integer fails the query; otherwise the check refuses exactly when
   * another category of the owner, not archived, in the same scope, has
   * that very name.
   */
  function CheckDuplication(rows: seq<Row<CategoryData>>, name: string, parent: Option<string>, userId: nat,
                            excludeId: Option<string>): (r: Result<()>)
    ensures BindTruthy(parent).Err? || BindTruthy(excludeId).Err? ==> r == Err(InvalidInteger)
    ensures BindTruthy(parent).Ok? && BindTruthy(excludeId).Ok? ==>
      (r.Err? <==> Clashes(rows, CategoryKey, (userId, name, BindTruthy(parent).value), BindTruthy(excludeId).value))
    ensures BindTruthy(parent).Ok? && BindTruthy(excludeId).Ok? && r.Err? ==> r.msg == CategoryExists
  {
    match BindTruthy(parent)
    case Err(m) => Err(m)
    case Ok(scope) =>
      match BindTruthy(excludeId)
      case Err(m) => Err(m)
      case Ok(exclude) =>
        var found := Select(rows, (c: Row<CategoryData>) =>
          c.data.createdBy == userId && c.data.name == name && c.data.archivedAt.None?
          && c.data.parent == scope && (exclude.None? || c.id != exclude.value));
        if |found| > 0 then
          assert found[0] in rows;
          Err(CategoryExists)
        else Ok(())
  }

  // ---------------------------------------------------------------------
  // `getSubcategories`

  /** A child of `parent` that belongs to the caller and is not archived. */
  function ChildOf(parent: nat, userId: nat): Row<CategoryData> -> bool
  {
    (c: Row<CategoryData>) => c.data.parent == Some(parent) && c.data.createdBy == userId && c.data.archivedAt.None?
  }

  /** `mapCategoryRow(sub, [])` over rows. */
  function Leaves(rows: seq<Row<CategoryData>>): (r: seq<CategoryNode>)
    ensures |r| == |rows|
    ensures forall i :: 0 <= i < |rows| ==> r[i] == MapCategoryRow(rows[i], [])
  {
    seq(|rows|, i requires 0 <= i < |rows| => MapCategoryRow(rows[i], []))
  }

  /** The subcategories of `parent` the resolvers attach: its children, as leaves, in table order. */
  function Children(rows: seq<Row<CategoryData>>, parent: nat, userId: nat): seq<CategoryNode>
  {
    Leaves(Select(rows, ChildOf(parent, userId)))
  }

  /** The `WHERE` of `getSubcategories`: a child of one of the parents, the caller's, not archived. */
  function UnderAny(parentIds: seq<Option<nat>>, userId: nat): Row<CategoryData> -> bool
  {
    (c: Row<CategoryData>) => c.data.parent.Some? && c.data.parent in parentIds
                             && c.data.createdBy == userId && c.data.archivedAt.None?
  }

  /** The accumulator of the `reduce` after the rows `prefix`. */
  ghost predicate Gathered(acc: map<nat, seq<CategoryNode>>, prefix: seq<Row<CategoryData>>, userId: nat)
  {
    forall p ::
      (p in acc <==> Select(prefix, ChildOf(p, userId)) != [])
      && (p in acc ==> acc[p] == Leaves(Select(prefix, ChildOf(p, userId))))
  }

  /** One row of the `reduce`: open its parent's list if needed, then push the row as a leaf. */
  function Push(acc: map<nat, seq<CategoryNode>>, x: Row<CategoryData>): map<nat, seq<CategoryNode>>
    requires x.data.parent.Some?
  {
    var k := x.data.parent.value;
    var started := if k in acc then acc else acc[k := []];
    started[k := started[k] + [MapCategoryRow(x, [])]]
  }

  /** The rows of the `reduce`: each has a parent, belongs to the caller and is not archived. */
  predicate Gatherable(rows: seq<Row<CategoryData>>, userId: nat)
  {
    forall i :: 0 <= i < |rows| ==>
      rows[i].data.parent.Some? && rows[i].data.createdBy == userId && rows[i].data.archivedAt.None?
  }

  /** The accumulator after folding `Push` over the rows. */
  function GatherFold(rows: seq<Row<CategoryData>>, userId: nat): map<nat, seq<CategoryNode>>
    requires Gatherable(rows, userId)
    decreases |rows|
  {
    if rows == [] then map[]
    else Push(GatherFold(rows[..|rows| - 1], userId), rows[|rows| - 1])
  }

  lemma LeavesSnoc(rows: seq<Row<CategoryData>>, x: Row<CategoryData>)
    ensures Leaves(rows + [x]) == Leaves(rows) + [MapCategoryRow(x, [])]
  {
    var l := Leaves(rows + [x]);
    var r := Leaves(rows) + [MapCategoryRow(x, [])];
    forall i | 0 <= i < |l|
      ensures l[i] == r[i]
    {
      if i < |rows| {
        assert (rows + [x])[i] == rows[i];
      }
    }
  }

  /** One push keeps the accumulator's meaning for one parent `p`. */
  lemma PushKey(acc: map<nat, seq<CategoryNode>>, prefix: seq<Row<CategoryData>>, x: Row<CategoryData>, userId: nat, p: nat)
    requires Gathered(acc, prefix, userId)
    requires x.data.parent.Some? && x.data.createdBy == userId && x.data.archivedAt.None?
    ensures p in Push(acc, x) <==> Select(prefix + [x], ChildOf(p, userId)) != []
    ensures p in Push(acc, x) ==> Push(acc, x)[p] == Leaves(Select(prefix + [x], ChildOf(p, userId)))
  {
    SelectSnoc(prefix, x, ChildOf(p, userId));
    var before := Select(prefix, ChildOf(p, userId));
    assert p in acc <==> before != [];
    if p == x.data.parent.value {
      assert ChildOf(p, userId)(x);
      LeavesSnoc(before, x);
    } else {
      assert !ChildOf(p, userId)(x);
    }
  }

  /** The fold over a non-empty sequence is its last push. */
  lemma FoldLast(rows: seq<Row<CategoryData>>, userId: nat)
    requires rows != [] && Gatherable(rows, userId)
    ensures Gatherable(rows[..|rows| - 1], userId)
    ensures rows == rows[..|rows| - 1] + [rows[|rows| - 1]]
    ensures GatherFold(rows, userId) == Push(GatherFold(rows[..|rows| - 1], userId), rows[|rows| - 1])
  {
    assert rows == rows[..|rows| - 1] + [rows[|rows| - 1]];
  }

  /** The last push extends the meaning of the fold over all but the last row to all the rows. */
  lemma GatherStep(rows: seq<Row<CategoryData>>, userId: nat)
    requires rows != [] && Gatherable(rows, userId)
    requires Gathered(GatherFold(rows[..|rows| - 1], userId), rows[..|rows| - 1], userId)
    ensures Gathered(GatherFold(rows, userId), rows, userId)
  {
    FoldLast(rows, userId);
    var prefix := rows[..|rows| - 1];
    var x := rows[|rows| - 1];
    assert x.data.parent.Some? && x.data.createdBy == userId && x.data.archivedAt.None?;
    forall p
      ensures (p in GatherFold(rows, userId) <==> Select(rows, ChildOf(p, userId)) != [])
              && (p in GatherFold(rows, userId) ==> GatherFold(rows, userId)[p] == Leaves(Select(rows, ChildOf(p, userId))))
    {
      PushKey(GatherFold(prefix, userId), prefix, x, userId, p);
    }
  }

  /** What the fold holds: for every parent, exactly its children among the rows, as leaves, in order. */
  lemma {:induction false} GatherFoldMeaning(rows: seq<Row<CategoryData>>, userId: nat)
    requires Gatherable(rows, userId)
    ensures Gathered(GatherFold(rows, userId), rows, userId)
    decreases |rows|
  {
    if rows != [] {
      FoldLast(rows, userId);
      GatherFoldMeaning(rows[..|rows| - 1], userId);
      GatherStep(rows, userId);
    }
  }

  /** The `reduce` itself, over the rows of the query. */
  method GatherRows(result: seq<Row<CategoryData>>, userId: nat) returns (acc: map<nat, seq<CategoryNode>>)
    requires Gatherable(result, userId)
    ensures acc == GatherFold(result, userId)
  {
    acc := map[];
    var i := 0;
    while i < |result|
      invariant 0 <= i <= |result|
      invariant Gatherable(result[..i], userId)
      invariant acc == GatherFold(result[..i], userId)
    {
      var sub := result[i];
      assert result[..i + 1][..i] == result[..i] && result[..i + 1][i] == sub;
      FoldLast(result[..i + 1], userId);
      var key := sub.data.parent.value;
      var started := if key in acc then acc else acc[key := []];
      acc := started[key := started[key] + [MapCategoryRow(sub, [])]];
      i := i + 1;
    }
    assert result[..i] == result;
  }

  /** The children of `p` among the query's rows: all of them when `p` was asked for, none otherwise. */
  lemma NarrowedChildren(rows: seq<Row<CategoryData>>, parentIds: seq<Option<nat>>, userId: nat, p: nat)
    ensures Select(Select(rows, UnderAny(parentIds, userId)), ChildOf(p, userId))
            == if Some(p) in parentIds then Select(rows, ChildOf(p, userId)) else []
  {
    if Some(p) in parentIds {
      SelectNarrow(rows, UnderAny(parentIds, userId), ChildOf(p, userId));
    } else {
      SelectNone(Select(rows, UnderAny(parentIds, userId)), ChildOf(p, userId));
    }
  }

  /** The map holds the parents given that have children, each with exactly its children. */
  ghost predicate HoldsChildren(acc: map<nat, seq<CategoryNode>>, rows: seq<Row<CategoryData>>, parentIds: seq<Option<nat>>,
                                userId: nat)
  {
    (forall p :: p in acc <==> Some(p) in parentIds && Children(rows, p, userId) != [])
    && (forall p :: p in acc ==> acc[p] == Children(rows, p, userId))
  }

  /**
   * `getSubcategories(parentIds, userId)`: `{}` for no parents; otherwise
   * one entry per parent that has children, holding those children as
   * leaves in row order. A `null` parent id matches no row.
   */
  method GetSubcategories(rows: seq<Row<CategoryData>>, parentIds: seq<Option<nat>>, userId: nat)
    returns (acc: map<nat, seq<CategoryNode>>)
    ensures HoldsChildren(acc, rows, parentIds, userId)
  {
    if |parentIds| == 0 {
      return map[];
    }
    var result := Select(rows, UnderAny(parentIds, userId));
    acc := GatherRows(result, userId);
    GatherFoldMeaning(result, userId);
    forall p {
      NarrowedChildren(rows, parentIds, userId, p);
    }
  }
}
