/**
 * The invariant each `checkDuplication` guard protects: among the rows that
 * are not archived, no two share the guard's key (an owner with a name, an
 * owner with a parent and a name, an owner with an email, …). A key
 * function maps a row to `None` when the row is out of every scope, which
 * is what archiving does.
 */
module Uniqueness {
  import opened Wrappers
  import opened Store

  /** No two rows in scope share a key. */
  predicate UniqueBy<F, K(==)>(rows: seq<Row<F>>, key: F -> Option<K>)
  {
    forall i, j :: 0 <= i < j < |rows| && key(rows[i].data).Some? ==> key(rows[i].data) != key(rows[j].data)
  }

  /** Some row other than `exclude` holds key `k`: what a duplication query finds. */
  predicate Clashes<F, K(==)>(rows: seq<Row<F>>, key: F -> Option<K>, k: K, exclude: Option<nat>)
  {
    exists i :: 0 <= i < |rows| && key(rows[i].data) == Some(k) && (exclude.None? || rows[i].id != exclude.value)
  }

  /** An insert that passed the duplication check keeps keys unique. */
  lemma AppendKeepsUnique<F, K>(rows: seq<Row<F>>, key: F -> Option<K>, x: Row<F>)
    requires UniqueBy(rows, key)
    requires key(x.data).None? || !Clashes(rows, key, key(x.data).value, None)
    ensures UniqueBy(rows + [x], key)
  {
    var s := rows + [x];
    forall i, j | 0 <= i < j < |s| && key(s[i].data).Some?
      ensures key(s[i].data) != key(s[j].data)
    {
      if j == |rows| && key(x.data).Some? {
        assert s[i] == rows[i];
      }
    }
  }

  /**
   * An update of the one row with id `id` that passed the duplication check
   * with that row excluded keeps keys unique.
   */
  lemma UpdateOneKeepsUnique<F, K>(rows: seq<Row<F>>, key: F -> Option<K>, p: Row<F> -> bool, id: nat, g: F -> F)
    requires UniqueBy(rows, key) && IdsAscending(rows)
    requires forall i :: 0 <= i < |rows| && p(rows[i]) ==> rows[i].id == id
    requires forall i :: 0 <= i < |rows| && p(rows[i]) && key(g(rows[i].data)).Some? ==>
      !Clashes(rows, key, key(g(rows[i].data)).value, Some(id))
    ensures UniqueBy(Updated(rows, p, g), key)
  {
    var s := Updated(rows, p, g);
    forall i, j | 0 <= i < j < |s| && key(s[i].data).Some?
      ensures key(s[i].data) != key(s[j].data)
    {
      if p(rows[i]) {
        assert !p(rows[j]);
        assert rows[j].id != id;
      } else if p(rows[j]) {
        assert rows[i].id != id;
      }
    }
  }

  /** Taking rows out of scope (archiving them) keeps keys unique. */
  lemma ClearKeepsUnique<F, K>(rows: seq<Row<F>>, key: F -> Option<K>, p: Row<F> -> bool, g: F -> F)
    requires UniqueBy(rows, key)
    requires forall i :: 0 <= i < |rows| && p(rows[i]) ==> key(g(rows[i].data)).None?
    ensures UniqueBy(Updated(rows, p, g), key)
  {
  }

  /** Updates that leave every key as it was keep keys unique. */
  lemma KeyPreservingKeepsUnique<F, K>(rows: seq<Row<F>>, key: F -> Option<K>, p: Row<F> -> bool, g: F -> F)
    requires UniqueBy(rows, key)
    requires forall i :: 0 <= i < |rows| && p(rows[i]) ==> key(g(rows[i].data)) == key(rows[i].data)
    ensures UniqueBy(Updated(rows, p, g), key)
  {
  }
}
