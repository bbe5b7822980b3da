/**
 * Forward keyset pagination, the scheme the `templates`, `exercises`,
 * `exerciseVariables` and `adminUsers` queries share: rows ordered by id,
 * filtered by `id > after`, `LIMIT first + 1`, the extra row popped and
 * reported as `hasNextPage`. Cursors carry the text of a row id; the base64
 * layer around that text is not part of this model.
 */
module Paging {
  import opened Wrappers
  import opened Text
  import opened Store

  /** A cursor, as the text its base64 form decodes to. */
  datatype Cursor = Cursor(text: string)

  datatype Edge<N> = Edge(cursor: Cursor, node: N)

  datatype PageInfo = PageInfo(hasNextPage: bool, hasPreviousPage: bool,
                               startCursor: Option<Cursor>, endCursor: Option<Cursor>)

  datatype Connection<N> = Connection(edges: seq<Edge<N>>, pageInfo: PageInfo)

  const FirstNegative := "'first' must be positive"

  /** `Buffer.from(row.id.toString())`: the cursor of a row. */
  function CursorOf(id: nat): Cursor
  {
    Cursor(NatToString(id))
  }

  /**
   * `after ? decode(after) : null`, then `if (afterId)` and the binding of
   * `id > $n`: no bound for an absent or empty cursor, a bound for an
   * integer, a database error for any other text.
   */
  function AfterId(after: Option<Cursor>): (r: Result<Option<nat>>)
    ensures r == Ok(None) <==> after.None? || after.value.text == ""
    ensures r.Err? <==> after.Some? && after.value.text != "" && ParseNat(after.value.text).None?
    ensures r.Ok? && r.value.Some? ==> Some(r.value.value) == ParseNat(after.value.text)
  {
    if after.None? || after.value.text == "" then Ok(None)
    else
      match BindInt(after.value.text)
      case Ok(n) => Ok(Some(n))
      case Err(m) => Err(m)
  }

  /** A page's cursor reads back as the id of the row it was made from. */
  lemma CursorRoundTrip(id: nat)
    ensures AfterId(Some(CursorOf(id))) == Ok(Some(id))
  {
    ParseNatToString(id);
  }

  /** The rows a paged query reads before its `LIMIT`: those that pass `q` and lie beyond the cursor. */
  function AboveCursor<F>(rows: seq<Row<F>>, q: Row<F> -> bool, after: Option<nat>): seq<Row<F>>
  {
    Select(rows, (r: Row<F>) => q(r) && (after.None? || r.id > after.value))
  }

  /** `LIMIT n`. */
  function Limited<T>(s: seq<T>, n: nat): (r: seq<T>)
    ensures |r| == Min(n, |s|) && r == s[..|r|]
  {
    if n < |s| then s[..n] else s
  }

  /**
   * What a page over the matching rows `m` must be: the first
   * `max(first, 0)` of them, each with its cursor; `hasNextPage` exactly
   * when more than `first` rows match; never a previous page; the start and
   * end cursors those of the first and last edge, or null on an empty page.
   */
  ghost predicate IsKeysetPage<F, N>(c: Connection<N>, m: seq<Row<F>>, first: int, f: Row<F> -> N)
  {
    var n := Min(Max(first, 0), |m|);
    |c.edges| == n
    && (forall i :: 0 <= i < n ==> c.edges[i] == Edge(CursorOf(m[i].id), f(m[i])))
    && c.pageInfo.hasNextPage == (|m| > first)
    && !c.pageInfo.hasPreviousPage
    && c.pageInfo.startCursor == (if n > 0 then Some(CursorOf(m[0].id)) else None)
    && c.pageInfo.endCursor == (if n > 0 then Some(CursorOf(m[n - 1].id)) else None)
  }

  /**
   * The shared tail of the paged queries: fetch `first + 1` rows, pop the
   * extra one when there is more, map the rest to edges. `first = -1` is
   * let through by the one query without a guard; it reads no row.
   */
  method KeysetPage<F, N>(matching: seq<Row<F>>, first: int, f: Row<F> -> N) returns (c: Connection<N>)
    requires first >= -1
    ensures IsKeysetPage(c, matching, first, f)
  {
    var rows := Limited(matching, first + 1);
    var hasMore := |rows| > first;
    if hasMore && |rows| > 0 {
      rows := rows[..|rows| - 1];
    }
    var edges := seq(|rows|, i requires 0 <= i < |rows| => Edge(CursorOf(rows[i].id), f(rows[i])));
    var startCursor := if |edges| > 0 then Some(edges[0].cursor) else None;
    var endCursor := if |edges| > 0 then Some(edges[|edges| - 1].cursor) else None;
    c := Connection(edges, PageInfo(hasMore, false, startCursor, endCursor));
  }

  /** A page never holds more than `first` edges, and only rows that match. */
  lemma PageBounds<F, N>(c: Connection<N>, m: seq<Row<F>>, first: int, f: Row<F> -> N)
    requires IsKeysetPage(c, m, first, f)
    ensures |c.edges| <= Max(first, 0) && |c.edges| <= |m|
    ensures c.pageInfo.hasNextPage ==> |c.edges| == Max(first, 0)
    ensures !c.pageInfo.hasNextPage ==> |c.edges| == |m|
  {
  }

  /** Rows on a page pass the query's filter, lie beyond the cursor and ascend by id. */
  lemma AboveCursorSound<F>(rows: seq<Row<F>>, q: Row<F> -> bool, after: Option<nat>)
    requires IdsAscending(rows)
    ensures IdsAscending(AboveCursor(rows, q, after))
    ensures forall i :: 0 <= i < |AboveCursor(rows, q, after)| ==>
      AboveCursor(rows, q, after)[i] in rows && q(AboveCursor(rows, q, after)[i])
      && (after.None? || AboveCursor(rows, q, after)[i].id > after.value)
    ensures forall i :: 0 <= i < |rows| && q(rows[i]) && (after.None? || rows[i].id > after.value) ==>
      rows[i] in AboveCursor(rows, q, after)
  {
  }

  /** Membership in the rows beyond a cursor, stated on the row itself. */
  lemma InAboveCursor<F>(rows: seq<Row<F>>, q: Row<F> -> bool, after: Option<nat>, x: Row<F>)
    ensures x in AboveCursor(rows, q, after) <==> x in rows && q(x) && (after.None? || x.id > after.value)
  {
    var m := AboveCursor(rows, q, after);
    if x in m {
      var i :| 0 <= i < |m| && m[i] == x;
    }
    if x in rows && q(x) && (after.None? || x.id > after.value) {
      var j :| 0 <= j < |rows| && rows[j] == x;
    }
  }

  /** The first row of an id-ascending sequence has the smallest id of all its rows. */
  lemma HeadIsLeast<F>(s: seq<Row<F>>, x: Row<F>)
    requires IdsAscending(s) && x in s
    ensures s[0].id <= x.id
    ensures x != s[0] ==> x in s[1..]
  {
    var k :| 0 <= k < |s| && s[k] == x;
    if k > 0 {
      assert s[1..][k - 1] == x;
    }
  }

  /** Two id-ascending sequences with the same rows are the same sequence. */
  lemma {:induction false} AscendingUnique<F>(s: seq<Row<F>>, t: seq<Row<F>>)
    requires IdsAscending(s) && IdsAscending(t)
    requires forall x :: x in s <==> x in t
    ensures s == t
    decreases |s|
  {
    if s != [] {
      assert s[0] in s;
    }
    if t != [] {
      assert t[0] in t;
    }
    if s != [] && t != [] {
      HeadIsLeast(t, s[0]);
      HeadIsLeast(s, t[0]);
      assert s[0].id == t[0].id;
      forall x
        ensures x in s[1..] <==> x in t[1..]
      {
        if x in s[1..] {
          assert x in s && x != s[0];
          HeadIsLeast(t, x);
        }
        if x in t[1..] {
          assert x in t && x != t[0];
          HeadIsLeast(s, x);
        }
      }
      AscendingUnique(s[1..], t[1..]);
      assert s == [s[0]] + s[1..] && t == [t[0]] + t[1..];
    }
  }

  /**
   * Following `endCursor` continues where a page stopped: the rows beyond
   * the cursor of the `k`-th matching row are exactly the matching rows
   * after it, so successive pages neither skip nor repeat a row.
   */
  lemma NextPageContinues<F>(rows: seq<Row<F>>, q: Row<F> -> bool, after: Option<nat>, k: nat)
    requires IdsAscending(rows)
    requires k < |AboveCursor(rows, q, after)|
    ensures AboveCursor(rows, q, Some(AboveCursor(rows, q, after)[k].id)) == AboveCursor(rows, q, after)[k + 1..]
  {
    var m := AboveCursor(rows, q, after);
    var a := m[k].id;
    var m' := AboveCursor(rows, q, Some(a));
    AboveCursorSound(rows, q, after);
    AboveCursorSound(rows, q, Some(a));
    forall x
      ensures x in m' <==> x in m[k + 1..]
    {
      InAboveCursor(rows, q, after, x);
      InAboveCursor(rows, q, Some(a), x);
      InAboveCursor(rows, q, after, m[k]);
      if x in m' {
        var l :| 0 <= l < |m| && m[l] == x;
        assert m[k + 1..][l - k - 1] == x;
      }
      if x in m[k + 1..] {
        var l :| k + 1 <= l < |m| && m[l] == x;
        assert m[k].id < m[l].id;
      }
    }
    AscendingUnique(m', m[k + 1..]);
  }

  /**
   * Every edge of a page comes from a row of the table that passes the
   * query's filter and lies beyond the cursor, and carries that row's cursor.
   */
  lemma PageFromRows<F, N>(c: Connection<N>, rows: seq<Row<F>>, q: Row<F> -> bool, after: Option<nat>,
                           first: int, f: Row<F> -> N)
    requires IdsAscending(rows)
    requires IsKeysetPage(c, AboveCursor(rows, q, after), first, f)
    ensures forall i :: 0 <= i < |c.edges| ==>
      exists row :: row in rows && q(row) && (after.None? || row.id > after.value) && c.edges[i] == Edge(CursorOf(row.id), f(row))
  {
    var m := AboveCursor(rows, q, after);
    AboveCursorSound(rows, q, after);
    forall i | 0 <= i < |c.edges|
      ensures exists row :: row in rows && q(row) && (after.None? || row.id > after.value) && c.edges[i] == Edge(CursorOf(row.id), f(row))
    {
      assert c.edges[i] == Edge(CursorOf(m[i].id), f(m[i]));
    }
  }

  /** `searchTerm && searchTerm.trim()`: the trimmed term, when there is one to search for. */
  function SearchPattern(term: Option<string>): (r: Option<string>)
    ensures r.Some? <==> term.Some? && Trim(term.value) != ""
    ensures r.Some? ==> r.value == Trim(term.value)
  {
    if term.Some? && Trim(term.value) != "" then Some(Trim(term.value)) else None
  }

  /** `name ILIKE '%term%'` when a pattern is given, no condition otherwise. */
  predicate MatchesSearch(name: string, term: Option<string>)
  {
    SearchPattern(term).None? || Contains(name, SearchPattern(term).value)
  }

  /** `const { first = 10 } = args`: the default page size applies when `first` is not given. */
  function PageSize(first: Option<int>): int
  {
    if first.None? then 10 else first.value
  }
}
