/**
 * The children of a template or a training, shared by both writers and
 * readers: the exercise list of the input becomes one link row per
 * exercise, in input order, and each exercise's sets become one flattened
 * set-variable row per (set, variable); the readers join the set-variable
 * rows of a link with the variable catalogue and order them by set number,
 * then by variable name.
 */
module Composite {
  import opened Wrappers
  import opened Text
  import opened Ids
  import opened Store
  import opened Sorting

  // ---------------------------------------------------------------------
  // The input of the writers

  datatype VariableInput = VariableInput(variableId: Option<string>, targetValue: Option<string>)

  datatype SetInput = SetInput(setNumber: int, variables: seq<VariableInput>)

  /** An exercise of the input; absent `sets` are the empty list here. */
  datatype ExerciseInput = ExerciseInput(exerciseId: Option<string>, orderPosition: int, sets: seq<SetInput>)

  /** `targetValue || null`: an empty or absent target is stored as NULL. */
  function StoredTarget(t: Option<string>): (r: Option<string>)
    ensures r.None? <==> t.None? || t.value == ""
    ensures r.Some? ==> r == t
  {
    if t.None? || t.value == "" then None else t
  }

  /** `decodeId(Models.Exercise, ex.exerciseId)` bound to `exercise_id`. */
  function ExerciseRef(e: Option<string>): Result<Option<nat>>
  {
    BindOptInt(DecodeId(Exercise, e))
  }

  /** An exercise id of the input names a row id once decoded. */
  lemma ExerciseRefOfEncoded(id: nat)
    ensures ExerciseRef(Some(EncodeRowId(Exercise, id))) == Ok(Some(id))
  {
    RowIdRoundTrip(Exercise, id);
  }

  /**
   * The values of the one link `INSERT`: a row per exercise, in input
   * order, or the binding error of the first exercise id that is not an
   * integer once decoded, which fails the whole statement.
   */
  function LinkRows(parent: nat, exs: seq<ExerciseInput>): (r: Result<seq<LinkData>>)
    ensures r.Ok? <==> forall i :: 0 <= i < |exs| ==> ExerciseRef(exs[i].exerciseId).Ok?
    ensures r.Ok? ==> (|r.value| == |exs|
      && forall i :: 0 <= i < |exs| ==>
           r.value[i] == LinkData(parent, ExerciseRef(exs[i].exerciseId).value, exs[i].orderPosition))
    ensures r.Err? ==> r.msg == InvalidInteger
  {
    if exs == [] then Ok([])
    else
      var front := exs[..|exs| - 1];
      var last := exs[|exs| - 1];
      match LinkRows(parent, front)
      case Err(m) => Err(m)
      case Ok(ls) =>
        match ExerciseRef(last.exerciseId)
        case Err(m) => Err(m)
        case Ok(e) => Ok(ls + [LinkData(parent, e, last.orderPosition)])
  }

  /** `exercises.forEach(ex => exerciseParams.push(…))`, bound as the statement binds it. */
  method LinkValues(parent: nat, exs: seq<ExerciseInput>) returns (r: Result<seq<LinkData>>)
    ensures r == LinkRows(parent, exs)
  {
    var values: seq<LinkData> := [];
    var i := 0;
    while i < |exs|
      invariant 0 <= i <= |exs|
      invariant LinkRows(parent, exs[..i]) == Ok(values)
    {
      assert exs[..i + 1][..i] == exs[..i];
      var e := ExerciseRef(exs[i].exerciseId);
      if e.Err? {
        assert forall j :: i < j <= |exs| ==> LinkRows(parent, exs[..j]).Err? by {
          forall j | i < j <= |exs|
            ensures LinkRows(parent, exs[..j]).Err?
          {
            assert exs[..j][i] == exs[i];
          }
        }
        assert exs[..|exs|] == exs;
        return Err(e.msg);
      }
      values := values + [LinkData(parent, e.value, exs[i].orderPosition)];
      i := i + 1;
    }
    assert exs[..i] == exs;
    return Ok(values);
  }

  /** A set-variable row before its variable id is bound. */
  datatype PendingVar = PendingVar(link: nat, setNumber: int, variableId: Option<string>, targetValue: Option<string>)

  /** The pending rows of one set, in the order of its variables. */
  function SetVars(link: nat, s: SetInput): (r: seq<PendingVar>)
    ensures |r| == |s.variables|
  {
    seq(|s.variables|, k requires 0 <= k < |s.variables| =>
      PendingVar(link, s.setNumber, DecodeId(ExerciseVariables, s.variables[k].variableId),
                 StoredTarget(s.variables[k].targetValue)))
  }

  /** `allVariables`: the pending rows of every set of an exercise, set by set. */
  function FlatVars(link: nat, sets: seq<SetInput>): seq<PendingVar>
  {
    if sets == [] then [] else FlatVars(link, sets[..|sets| - 1]) + SetVars(link, sets[|sets| - 1])
  }

  /** The number of (set, variable) pairs of an exercise. */
  function VarCount(sets: seq<SetInput>): nat
  {
    if sets == [] then 0 else VarCount(sets[..|sets| - 1]) + |sets[|sets| - 1].variables|
  }

  /**
   * One pending row per (set, variable), in nested input order: variable
   * `k` of set `j` sits after every variable of the sets before `j`.
   */
  lemma {:induction false} FlatVarsAt(link: nat, sets: seq<SetInput>, j: nat, k: nat)
    requires j < |sets| && k < |sets[j].variables|
    ensures |FlatVars(link, sets)| == VarCount(sets)
    ensures VarCount(sets[..j]) + k < VarCount(sets)
    ensures FlatVars(link, sets)[VarCount(sets[..j]) + k] ==
      PendingVar(link, sets[j].setNumber, DecodeId(ExerciseVariables, sets[j].variables[k].variableId),
                 StoredTarget(sets[j].variables[k].targetValue))
  {
    var front := sets[..|sets| - 1];
    FlatVarsLength(link, front);
    VarCountPrefix(sets, j);
    if j < |sets| - 1 {
      FlatVarsAt(link, front, j, k);
      assert front[..j] == sets[..j];
    } else {
      assert front == sets[..j];
    }
  }

  lemma {:induction false} FlatVarsLength(link: nat, sets: seq<SetInput>)
    ensures |FlatVars(link, sets)| == VarCount(sets)
  {
    if sets != [] {
      FlatVarsLength(link, sets[..|sets| - 1]);
    }
  }

  lemma {:induction false} VarCountPrefix(sets: seq<SetInput>, j: nat)
    requires j <= |sets|
    ensures VarCount(sets[..j]) <= VarCount(sets)
    ensures j < |sets| ==> VarCount(sets[..j]) + |sets[j].variables| <= VarCount(sets)
    decreases |sets|
  {
    if j < |sets| {
      var front := sets[..|sets| - 1];
      if j < |sets| - 1 {
        VarCountPrefix(front, j);
        assert front[..j] == sets[..j];
        assert front[j] == sets[j];
      } else {
        assert front == sets[..j];
      }
    } else {
      assert sets[..j] == sets;
    }
  }

  /** The nested `forEach` over sets and their variables that fills `allVariables`. */
  method CollectVariables(link: nat, sets: seq<SetInput>) returns (all: seq<PendingVar>)
    ensures all == FlatVars(link, sets)
  {
    all := [];
    var j := 0;
    while j < |sets|
      invariant 0 <= j <= |sets|
      invariant all == FlatVars(link, sets[..j])
    {
      assert sets[..j + 1][..j] == sets[..j];
      var vars := sets[j].variables;
      var k := 0;
      while k < |vars|
        invariant 0 <= k <= |vars|
        invariant all == FlatVars(link, sets[..j]) + SetVars(link, sets[j])[..k]
      {
        assert SetVars(link, sets[j])[..k + 1] == SetVars(link, sets[j])[..k] + [SetVars(link, sets[j])[k]];
        all := all + [PendingVar(link, sets[j].setNumber, DecodeId(ExerciseVariables, vars[k].variableId),
                                 StoredTarget(vars[k].targetValue))];
        k := k + 1;
      }
      assert SetVars(link, sets[j])[..k] == SetVars(link, sets[j]);
      j := j + 1;
    }
    assert sets[..j] == sets;
  }

  /**
   * The values of one set-variable `INSERT`, bound: the statement fails as a
   * whole when a decoded variable id is not an integer.
   */
  function BindVars(ps: seq<PendingVar>): (r: Result<seq<SetVarData>>)
    ensures r.Ok? <==> forall i :: 0 <= i < |ps| ==> BindOptInt(ps[i].variableId).Ok?
    ensures r.Ok? ==> (|r.value| == |ps|
      && forall i :: 0 <= i < |ps| ==>
           r.value[i] == SetVarData(ps[i].link, ps[i].setNumber, BindOptInt(ps[i].variableId).value, ps[i].targetValue))
    ensures r.Err? ==> r.msg == InvalidInteger
  {
    if ps == [] then Ok([])
    else
      var front := ps[..|ps| - 1];
      var last := ps[|ps| - 1];
      match BindVars(front)
      case Err(m) => Err(m)
      case Ok(vs) =>
        match BindOptInt(last.variableId)
        case Err(m) => Err(m)
        case Ok(v) => Ok(vs + [SetVarData(last.link, last.setNumber, v, last.targetValue)])
  }

  /** The set-variable statement of an exercise's sets binds. */
  predicate VarsBind(link: nat, sets: seq<SetInput>)
  {
    BindVars(FlatVars(link, sets)).Ok?
  }

  /** What the set-variable statements wrote, and whether all of them ran. */
  datatype Written = Written(rows: seq<SetVarData>, complete: bool)

  /**
   * The set-variable rows written for exercises whose links got the ids
   * `first`, `first + 1`, …: exercise by exercise, up to the first one whose
   * statement fails.
   */
  function ChildVars(first: nat, exs: seq<ExerciseInput>): Written
  {
    if exs == [] then Written([], true)
    else
      var n := |exs| - 1;
      var w := ChildVars(first, exs[..n]);
      if !w.complete then w
      else
        match BindVars(FlatVars(first + n, exs[n].sets))
        case Err(_) => Written(w.rows, false)
        case Ok(vs) => Written(w.rows + vs, true)
  }

  /** Every row links to one of the ids `lo`, …, `hi - 1`. */
  predicate LinksWithin(rows: seq<SetVarData>, lo: nat, hi: nat)
  {
    forall i :: 0 <= i < |rows| ==> lo <= rows[i].link < hi
  }

  /** Every set-variable row written belongs to one of the new links. */
  lemma {:induction false} ChildVarsLinks(first: nat, exs: seq<ExerciseInput>)
    ensures LinksWithin(ChildVars(first, exs).rows, first, first + |exs|)
  {
    if exs != [] {
      var n := |exs| - 1;
      ChildVarsLinks(first, exs[..n]);
      var b := BindVars(FlatVars(first + n, exs[n].sets));
      if ChildVars(first, exs[..n]).complete && b.Ok? {
        FlatVarsLinks(first + n, exs[n].sets);
        LinksAppend(ChildVars(first, exs[..n]).rows, b.value, first, first + n);
      }
    }
  }

  lemma LinksAppend(w: seq<SetVarData>, vs: seq<SetVarData>, lo: nat, link: nat)
    requires LinksWithin(w, lo, link) && lo <= link && forall i :: 0 <= i < |vs| ==> vs[i].link == link
    ensures LinksWithin(w + vs, lo, link + 1)
  {
  }

  lemma {:induction false} FlatVarsLinks(link: nat, sets: seq<SetInput>)
    ensures forall i :: 0 <= i < |FlatVars(link, sets)| ==> FlatVars(link, sets)[i].link == link
  {
    if sets != [] {
      FlatVarsLinks(link, sets[..|sets| - 1]);
    }
  }

  /** Every exercise's variables bind exactly when all children are written. */
  lemma {:induction false} ChildVarsComplete(first: nat, exs: seq<ExerciseInput>)
    ensures ChildVars(first, exs).complete <==> AllBind(first, exs)
  {
    if exs != [] {
      var n := |exs| - 1;
      ChildVarsComplete(first, exs[..n]);
      CompleteStep(first, exs);
      AllBindStep(first, exs);
    }
  }

  lemma CompleteStep(first: nat, exs: seq<ExerciseInput>)
    requires exs != []
    ensures ChildVars(first, exs).complete <==>
      ChildVars(first, exs[..|exs| - 1]).complete && VarsBind(first + (|exs| - 1), exs[|exs| - 1].sets)
  {
  }

  /** Every exercise's set-variable statement binds. */
  predicate AllBind(first: nat, exs: seq<ExerciseInput>)
  {
    forall i :: 0 <= i < |exs| ==> VarsBind(first + i, exs[i].sets)
  }

  lemma AllBindStep(first: nat, exs: seq<ExerciseInput>)
    requires exs != []
    ensures AllBind(first, exs) <==> AllBind(first, exs[..|exs| - 1]) && VarsBind(first + (|exs| - 1), exs[|exs| - 1].sets)
  {
    var front := exs[..|exs| - 1];
    assert forall i :: 0 <= i < |exs| - 1 ==> front[i] == exs[i];
  }

  /** When every statement runs, each exercise contributes one row per (set, variable). */
  lemma {:induction false} ChildVarsCount(first: nat, exs: seq<ExerciseInput>)
    requires ChildVars(first, exs).complete
    ensures |ChildVars(first, exs).rows| == TotalVars(exs)
  {
    if exs != [] {
      var n := |exs| - 1;
      ChildVarsCount(first, exs[..n]);
      FlatVarsLength(first + n, exs[n].sets);
    }
  }

  function TotalVars(exs: seq<ExerciseInput>): nat
  {
    if exs == [] then 0 else TotalVars(exs[..|exs| - 1]) + VarCount(exs[|exs| - 1].sets)
  }

  lemma AppendAssoc<T>(a: seq<T>, b: seq<T>, c: seq<T>)
    ensures (a + b) + c == a + (b + c)
  {
  }

  lemma NumberedAppend<F>(n: nat, a: seq<F>, b: seq<F>)
    ensures Numbered(n, a + b) == Numbered(n, a) + Numbered(n + |a|, b)
  {
  }

  /** Appending the next numbered batch to a table that holds the earlier ones numbers them all at once. */
  lemma ExtendNumbered<F>(base: seq<Row<F>>, start: nat, done: seq<F>, vs: seq<F>)
    ensures (base + Numbered(start, done)) + Numbered(start + |done|, vs) == base + Numbered(start, done + vs)
  {
    NumberedAppend(start, done, vs);
    AppendAssoc(base, Numbered(start, done), Numbered(start + |done|, vs));
  }

  /**
   * The writes after the parent row: the link `INSERT`, then for each
   * exercise with sets one set-variable `INSERT` of its flattened variables.
   * A failing statement stops the writer; whatever ran before it stays,
   * for the caller to roll back or not.
   */
  method WriteChildren(links: Table<LinkData>, setVars: Table<SetVarData>, parent: nat, exs: seq<ExerciseInput>)
    returns (r: Result<()>)
    requires links.Valid() && setVars.Valid()
    modifies links, setVars
    ensures links.Valid() && setVars.Valid()
    ensures r.Err? ==> r.msg == InvalidInteger
    ensures LinkRows(parent, exs).Err? ==>
      r.Err? && links.rows == old(links.rows) && links.nextId == old(links.nextId)
      && setVars.rows == old(setVars.rows) && setVars.nextId == old(setVars.nextId)
    ensures LinkRows(parent, exs).Ok? ==>
      links.rows == old(links.rows) + Numbered(old(links.nextId), LinkRows(parent, exs).value)
      && links.nextId == old(links.nextId) + |exs|
      && setVars.rows == old(setVars.rows) + Numbered(old(setVars.nextId), ChildVars(old(links.nextId), exs).rows)
      && setVars.nextId == old(setVars.nextId) + |ChildVars(old(links.nextId), exs).rows|
      && (r.Ok? <==> ChildVars(old(links.nextId), exs).complete)
  {
    var values := LinkValues(parent, exs);
    if values.Err? {
      return Err(values.msg);
    }
    var linkIds := links.InsertAll(values.value);
    r := WriteAllSets(setVars, linkIds, exs);
  }

  /**
   * `for (let i = 0; i < exercises.length; i++)`: the set-variable rows of
   * each exercise, under the link id the link `INSERT` returned for it.
   */
  method WriteAllSets(setVars: Table<SetVarData>, linkIds: seq<nat>, exs: seq<ExerciseInput>) returns (r: Result<()>)
    requires setVars.Valid()
    requires |linkIds| == |exs|
    requires forall i :: 0 <= i < |exs| ==> linkIds[i] == linkIds[0] + i
    modifies setVars
    ensures setVars.Valid()
    ensures r.Err? ==> r.msg == InvalidInteger
    ensures |exs| > 0 ==>
      setVars.rows == old(setVars.rows) + Numbered(old(setVars.nextId), ChildVars(linkIds[0], exs).rows)
      && setVars.nextId == old(setVars.nextId) + |ChildVars(linkIds[0], exs).rows|
      && (r.Ok? <==> ChildVars(linkIds[0], exs).complete)
    ensures |exs| == 0 ==> r.Ok? && setVars.rows == old(setVars.rows) && setVars.nextId == old(setVars.nextId)
  {
    if |exs| == 0 {
      return Ok(());
    }
    var first := linkIds[0];
    ghost var base := setVars.rows;
    ghost var start := setVars.nextId;
    var i := 0;
    while i < |exs|
      invariant 0 <= i <= |exs|
      invariant setVars.Valid()
      invariant ChildVars(first, exs[..i]).complete
      invariant setVars.rows == base + Numbered(start, ChildVars(first, exs[..i]).rows)
      invariant setVars.nextId == start + |ChildVars(first, exs[..i]).rows|
    {
      var written := WriteExercise(setVars, linkIds[i], first, exs, i, base, start);
      if written.Err? {
        ChildVarsStops(first, exs, i + 1);
        return written;
      }
      i := i + 1;
    }
    assert exs[..i] == exs;
    return Ok(());
  }

  /** One pass of the loop: the set-variable rows of exercise `i`, under its link. */
  method WriteExercise(setVars: Table<SetVarData>, link: nat, ghost first: nat, exs: seq<ExerciseInput>, i: nat,
                       ghost base: seq<Row<SetVarData>>, ghost start: nat) returns (r: Result<()>)
    requires i < |exs| && link == first + i
    requires setVars.Valid() && ChildVars(first, exs[..i]).complete
    requires setVars.rows == base + Numbered(start, ChildVars(first, exs[..i]).rows)
    requires setVars.nextId == start + |ChildVars(first, exs[..i]).rows|
    modifies setVars
    ensures setVars.Valid()
    ensures r.Err? ==> r.msg == InvalidInteger
    ensures setVars.rows == base + Numbered(start, ChildVars(first, exs[..i + 1]).rows)
    ensures setVars.nextId == start + |ChildVars(first, exs[..i + 1]).rows|
    ensures r.Ok? <==> ChildVars(first, exs[..i + 1]).complete
  {
    ghost var done := ChildVars(first, exs[..i]).rows;
    ChildVarsSnoc(first, exs, i);
    r := WriteNext(setVars, link, exs[i].sets, base, start, done);
  }

  /** A table holding `done` numbered from `start`, extended by the next batch, holds both numbered at once. */
  lemma ExtendRows<F>(cur: seq<Row<F>>, before: seq<Row<F>>, next: nat, base: seq<Row<F>>, start: nat,
                      done: seq<F>, vs: seq<F>)
    requires before == base + Numbered(start, done) && next == start + |done|
    requires cur == before + Numbered(next, vs)
    ensures cur == base + Numbered(start, done + vs)
  {
    ExtendNumbered(base, start, done, vs);
  }

  /** The rows the set-variable `INSERT` of one exercise adds: none when a variable id fails to bind. */
  function Batch(link: nat, sets: seq<SetInput>): seq<SetVarData>
  {
    var b := BindVars(FlatVars(link, sets));
    if b.Ok? then b.value else []
  }

  /** One turn of that loop: the rows of one exercise's sets extend the rows `done` already written. */
  method WriteNext(setVars: Table<SetVarData>, link: nat, sets: seq<SetInput>,
                   ghost base: seq<Row<SetVarData>>, ghost start: nat, ghost done: seq<SetVarData>)
    returns (r: Result<()>)
    requires setVars.Valid()
    requires setVars.rows == base + Numbered(start, done) && setVars.nextId == start + |done|
    modifies setVars
    ensures setVars.Valid()
    ensures r.Ok? <==> VarsBind(link, sets)
    ensures r.Err? ==> r.msg == InvalidInteger
    ensures setVars.rows == base + Numbered(start, done + Batch(link, sets))
    ensures setVars.nextId == start + |done + Batch(link, sets)|
  {
    ghost var before := setVars.rows;
    ghost var beforeNext := setVars.nextId;
    r := WriteSets(setVars, link, sets);
    ExtendRows(setVars.rows, before, beforeNext, base, start, done, Batch(link, sets));
  }

  /** The set-variable `INSERT` of one exercise, when it has sets and they have variables. */
  method WriteSets(setVars: Table<SetVarData>, link: nat, sets: seq<SetInput>) returns (r: Result<()>)
    requires setVars.Valid()
    modifies setVars
    ensures setVars.Valid()
    ensures r.Err? <==> !VarsBind(link, sets)
    ensures r.Err? ==> r.msg == InvalidInteger && setVars.rows == old(setVars.rows) && setVars.nextId == old(setVars.nextId)
    ensures r.Ok? ==>
      setVars.rows == old(setVars.rows) + Numbered(old(setVars.nextId), BindVars(FlatVars(link, sets)).value)
      && setVars.nextId == old(setVars.nextId) + |BindVars(FlatVars(link, sets)).value|
  {
    if |sets| > 0 {
      var pending := CollectVariables(link, sets);
      var bound := BindVars(pending);
      if bound.Err? {
        return Err(bound.msg);
      }
      if |bound.value| > 0 {
        var _ := setVars.InsertAll(bound.value);
      }
    }
    return Ok(());
  }

  lemma ChildVarsSnoc(first: nat, exs: seq<ExerciseInput>, i: nat)
    requires i < |exs| && ChildVars(first, exs[..i]).complete
    ensures ChildVars(first, exs[..i + 1]) ==
      Written(ChildVars(first, exs[..i]).rows + Batch(first + i, exs[i].sets), VarsBind(first + i, exs[i].sets))
  {
    var xs := exs[..i + 1];
    assert xs[..i] == exs[..i] && xs[i] == exs[i];
    ChildVarsLast(first, xs);
  }

  /** `ChildVars` on its last exercise, when every earlier one was written. */
  lemma ChildVarsLast(first: nat, xs: seq<ExerciseInput>)
    requires xs != [] && ChildVars(first, xs[..|xs| - 1]).complete
    ensures ChildVars(first, xs) ==
      Written(ChildVars(first, xs[..|xs| - 1]).rows + Batch(first + (|xs| - 1), xs[|xs| - 1].sets),
              VarsBind(first + (|xs| - 1), xs[|xs| - 1].sets))
  {
    var done := ChildVars(first, xs[..|xs| - 1]).rows;
    if !VarsBind(first + (|xs| - 1), xs[|xs| - 1].sets) {
      assert done + Batch(first + (|xs| - 1), xs[|xs| - 1].sets) == done;
    }
  }

  /** Once a statement fails, the exercises after it write nothing. */
  lemma {:induction false} ChildVarsStops(first: nat, exs: seq<ExerciseInput>, k: nat)
    requires 0 < k <= |exs| && !ChildVars(first, exs[..k]).complete
    ensures ChildVars(first, exs) == ChildVars(first, exs[..k])
    decreases |exs|
  {
    if k < |exs| {
      var n := |exs| - 1;
      assert exs[..n][..k] == exs[..k];
      ChildVarsStops(first, exs[..n], k);
    } else {
      assert exs[..k] == exs;
    }
  }

  // ---------------------------------------------------------------------
  // Replacing the children of a parent

  function OfParent(parent: nat): Row<LinkData> -> bool
  {
    (l: Row<LinkData>) => l.data.parent == parent
  }

  function NotOfParent(parent: nat): Row<LinkData> -> bool
  {
    (l: Row<LinkData>) => l.data.parent != parent
  }

  /** `link` is the id of one of the parent's link rows. */
  predicate IsLinkOf(links: seq<Row<LinkData>>, parent: nat, link: nat)
  {
    exists i :: 0 <= i < |links| && links[i].id == link && links[i].data.parent == parent
  }

  /** The set-variable rows a cascade from deleting the parent's links leaves. */
  function NotUnderParent(links: seq<Row<LinkData>>, parent: nat): Row<SetVarData> -> bool
  {
    (sv: Row<SetVarData>) => !IsLinkOf(links, parent, sv.data.link)
  }

  /**
   * The tables after the parent's links were deleted (cascading to their
   * set-variable rows) and a new exercise list written from serial values
   * `linksNext` and `varsNext`: the kept rows, in order, then the new ones.
   */
  ghost predicate Replaced(oldLinks: seq<Row<LinkData>>, oldVars: seq<Row<SetVarData>>, linksNext: nat, varsNext: nat,
                           links: seq<Row<LinkData>>, setVars: seq<Row<SetVarData>>, parent: nat, exs: seq<ExerciseInput>)
  {
    (LinkRows(parent, exs).Err? ==>
       links == Select(oldLinks, NotOfParent(parent))
       && setVars == Select(oldVars, NotUnderParent(oldLinks, parent)))
    && (LinkRows(parent, exs).Ok? ==>
          links == Select(oldLinks, NotOfParent(parent)) + Numbered(linksNext, LinkRows(parent, exs).value)
          && setVars == Select(oldVars, NotUnderParent(oldLinks, parent)) + Numbered(varsNext, ChildVars(linksNext, exs).rows))
  }

  /**
   * `DELETE FROM …_exercises WHERE …_id = $1`, whose foreign key cascades
   * to the set-variable rows of the deleted links, then the writes of a
   * new exercise list.
   */
  method ReplaceChildren(links: Table<LinkData>, setVars: Table<SetVarData>, parent: nat, exs: seq<ExerciseInput>)
    returns (r: Result<()>)
    requires links.Valid() && setVars.Valid()
    modifies links, setVars
    ensures links.Valid() && setVars.Valid()
    ensures r.Err? ==> r.msg == InvalidInteger
    ensures Replaced(old(links.rows), old(setVars.rows), old(links.nextId), old(setVars.nextId),
                     links.rows, setVars.rows, parent, exs)
    ensures r.Ok? <==> LinkRows(parent, exs).Ok? && ChildVars(old(links.nextId), exs).complete
  {
    setVars.DeleteWhere(NotUnderParent(links.rows, parent));
    links.DeleteWhere(NotOfParent(parent));
    r := WriteChildren(links, setVars, parent, exs);
  }

  /** After a replacement, the parent's links are exactly the new ones, in input order. */
  lemma ReplacedLinks(rows: seq<Row<LinkData>>, parent: nat, first: nat, exs: seq<ExerciseInput>)
    requires LinkRows(parent, exs).Ok?
    ensures Select(Select(rows, NotOfParent(parent)) + Numbered(first, LinkRows(parent, exs).value), OfParent(parent))
            == Numbered(first, LinkRows(parent, exs).value)
  {
    var kept := Select(rows, NotOfParent(parent));
    var added := Numbered(first, LinkRows(parent, exs).value);
    SelectAppend(kept, added, OfParent(parent));
    SelectNone(kept, OfParent(parent));
    SelectAll(added, OfParent(parent));
  }

  /** Some link row has the id `link`. */
  predicate LinkExists(links: seq<Row<LinkData>>, link: nat)
  {
    exists k :: 0 <= k < |links| && links[k].id == link
  }

  /** Every set-variable row hangs from a link row that exists. */
  predicate NoOrphans(links: seq<Row<LinkData>>, setVars: seq<Row<SetVarData>>)
  {
    forall i :: 0 <= i < |setVars| ==> LinkExists(links, setVars[i].data.link)
  }

  /**
   * A replacement leaves no orphan: when every set-variable row hung from
   * an existing link before, every one still does afterwards, whether the
   * new exercise list was written or its link statement failed.
   */
  lemma ReplacedNoOrphans(oldLinks: seq<Row<LinkData>>, oldVars: seq<Row<SetVarData>>, linksNext: nat, varsNext: nat,
                          links: seq<Row<LinkData>>, setVars: seq<Row<SetVarData>>, parent: nat, exs: seq<ExerciseInput>)
    requires NoOrphans(oldLinks, oldVars)
    requires Replaced(oldLinks, oldVars, linksNext, varsNext, links, setVars, parent, exs)
    ensures NoOrphans(links, setVars)
  {
    var keptLinks := Select(oldLinks, NotOfParent(parent));
    var keptVars := Select(oldVars, NotUnderParent(oldLinks, parent));
    KeptVarsLinked(oldLinks, oldVars, parent);
    if LinkRows(parent, exs).Ok? {
      var newLinks := Numbered(linksNext, LinkRows(parent, exs).value);
      var newVars := Numbered(varsNext, ChildVars(linksNext, exs).rows);
      ChildVarsLinks(linksNext, exs);
      NewVarsLinked(newLinks, linksNext, ChildVars(linksNext, exs).rows, varsNext, |exs|);
      NoOrphansAppend(keptLinks, keptVars, newLinks, newVars);
    }
  }

  /** The kept set-variable rows hang from kept links: a link of another parent survives the delete. */
  lemma KeptVarsLinked(oldLinks: seq<Row<LinkData>>, oldVars: seq<Row<SetVarData>>, parent: nat)
    requires NoOrphans(oldLinks, oldVars)
    ensures NoOrphans(Select(oldLinks, NotOfParent(parent)), Select(oldVars, NotUnderParent(oldLinks, parent)))
  {
    var keptLinks := Select(oldLinks, NotOfParent(parent));
    var keptVars := Select(oldVars, NotUnderParent(oldLinks, parent));
    forall i | 0 <= i < |keptVars|
      ensures LinkExists(keptLinks, keptVars[i].data.link)
    {
      var sv := keptVars[i];
      assert sv in oldVars && NotUnderParent(oldLinks, parent)(sv);
      var j :| 0 <= j < |oldVars| && oldVars[j] == sv;
      assert LinkExists(oldLinks, sv.data.link);
      var k :| 0 <= k < |oldLinks| && oldLinks[k].id == sv.data.link;
      assert !IsLinkOf(oldLinks, parent, sv.data.link);
      assert NotOfParent(parent)(oldLinks[k]);
      assert oldLinks[k] in keptLinks;
      var m :| 0 <= m < |keptLinks| && keptLinks[m] == oldLinks[k];
    }
  }

  /** New set-variable rows whose links are among the new link ids hang from the new links. */
  lemma NewVarsLinked(newLinks: seq<Row<LinkData>>, first: nat, vs: seq<SetVarData>, varsNext: nat, count: nat)
    requires |newLinks| == count && forall i :: 0 <= i < count ==> newLinks[i].id == first + i
    requires LinksWithin(vs, first, first + count)
    ensures NoOrphans(newLinks, Numbered(varsNext, vs))
  {
    var rows := Numbered(varsNext, vs);
    forall i | 0 <= i < |rows|
      ensures LinkExists(newLinks, rows[i].data.link)
    {
      var k := vs[i].link - first;
      assert newLinks[k].id == rows[i].data.link;
    }
  }

  lemma NoOrphansAppend(l1: seq<Row<LinkData>>, v1: seq<Row<SetVarData>>, l2: seq<Row<LinkData>>, v2: seq<Row<SetVarData>>)
    requires NoOrphans(l1, v1) && NoOrphans(l2, v2)
    ensures NoOrphans(l1 + l2, v1 + v2)
  {
    forall i | 0 <= i < |v1 + v2|
      ensures LinkExists(l1 + l2, (v1 + v2)[i].data.link)
    {
      if i < |v1| {
        assert (v1 + v2)[i] == v1[i];
        var k :| 0 <= k < |l1| && l1[k].id == v1[i].data.link;
        assert (l1 + l2)[k] == l1[k];
      } else {
        assert (v1 + v2)[i] == v2[i - |v1|];
        var k :| 0 <= k < |l2| && l2[k].id == v2[i - |v1|].data.link;
        assert (l1 + l2)[|l1| + k] == l2[k];
      }
    }
  }

  // ---------------------------------------------------------------------
  // The readers' query

  /** `LEFT JOIN exercise_variables ev ON ev.id = …`: the catalogue row a set variable names, if any. */
  function LookupVariable(variables: seq<Row<VariableData>>, id: Option<nat>): (r: Option<Row<VariableData>>)
    ensures r.Some? ==> id.Some? && r.value in variables && r.value.id == id.value
    ensures r.None? ==> id.None? || forall i :: 0 <= i < |variables| ==> variables[i].id != id.value
  {
    if id.None? then None
    else
      var found := Select(variables, (v: Row<VariableData>) => v.id == id.value);
      if |found| == 0 then None else Some(found[0])
  }

  /** `decodeId(…, parent.id)` bound as the link id of a reader's query. */
  function LinkParam(m: Model, parentId: string): Result<Option<nat>>
  {
    BindOptInt(DecodeId(m, Some(parentId)))
  }

  /** The id a link's own resolver hands to the reader reads back as that link. */
  lemma LinkParamOfEncoded(m: Model, id: nat)
    ensures LinkParam(m, EncodeRowId(m, id)) == Ok(Some(id))
  {
    RowIdRoundTrip(m, id);
  }

  /** A set-variable row of one link joined with its catalogue row. */
  datatype Joined = Joined(rowId: nat, setNumber: int, targetValue: Option<string>, variable: Option<Row<VariableData>>)

  /** `WHERE …_exercise_id = $1`. */
  function OfLink(link: nat): Row<SetVarData> -> bool
  {
    (sv: Row<SetVarData>) => sv.data.link == link
  }

  /** `LEFT JOIN exercise_variables ev ON ev.id = …variable_id`, for one row. */
  function JoinRow(variables: seq<Row<VariableData>>, sv: Row<SetVarData>): Joined
  {
    Joined(sv.id, sv.data.setNumber, sv.data.targetValue, LookupVariable(variables, sv.data.variable))
  }

  /** The set-variable rows of one link, in table order, each joined with its variable. */
  function JoinedRows(setVars: seq<Row<SetVarData>>, variables: seq<Row<VariableData>>, link: nat): (r: seq<Joined>)
    ensures |r| <= |setVars|
  {
    var s := Select(setVars, OfLink(link));
    seq(|s|, i requires 0 <= i < |s| => JoinRow(variables, s[i]))
  }

  /** `j` is some set-variable row of `link` joined with its catalogue row. */
  ghost predicate JoinedFrom(setVars: seq<Row<SetVarData>>, variables: seq<Row<VariableData>>, link: nat, j: Joined)
  {
    exists sv :: sv in setVars && sv.data.link == link && j == JoinRow(variables, sv)
  }

  /** Every joined row comes from a set-variable row of the link, with that row's id, set number, target and variable. */
  lemma JoinedRowsSound(setVars: seq<Row<SetVarData>>, variables: seq<Row<VariableData>>, link: nat)
    ensures forall j :: j in JoinedRows(setVars, variables, link) ==> JoinedFrom(setVars, variables, link, j)
  {
    var s := Select(setVars, OfLink(link));
    var r := JoinedRows(setVars, variables, link);
    forall j | j in r
      ensures JoinedFrom(setVars, variables, link, j)
    {
      var i :| 0 <= i < |r| && r[i] == j;
      assert s[i] in setVars && OfLink(link)(s[i]);
      assert j == JoinRow(variables, s[i]);
    }
  }

  /** Every set-variable row of the link is joined. */
  lemma JoinedRowsComplete(setVars: seq<Row<SetVarData>>, variables: seq<Row<VariableData>>, link: nat)
    ensures forall sv :: sv in setVars && sv.data.link == link ==> JoinRow(variables, sv) in JoinedRows(setVars, variables, link)
  {
    var s := Select(setVars, OfLink(link));
    forall sv | sv in setVars && sv.data.link == link
      ensures JoinRow(variables, sv) in JoinedRows(setVars, variables, link)
    {
      var j :| 0 <= j < |setVars| && setVars[j] == sv;
      assert OfLink(link)(sv);
      assert sv in s;
      var k :| 0 <= k < |s| && s[k] == sv;
      assert JoinedRows(setVars, variables, link)[k] == JoinRow(variables, sv);
    }
  }

  /** The `variable` object of a set entry: `ev.id` is NULL when the join found no row, and encodes as the text `null`. */
  datatype VariableRef = VariableRef(id: string, name: Option<string>, description: Option<string>, unit: Option<string>)

  function VariableRefOf(v: Option<Row<VariableData>>): (r: VariableRef)
    ensures v.Some? ==> r == VariableRef(EncodeRowId(ExerciseVariables, v.value.id), Some(v.value.data.name),
                                         v.value.data.description, Some(v.value.data.unit))
    ensures v.None? ==> r.id == EncodeId(ExerciseVariables, "null") && r.name.None? && r.unit.None?
  {
    match v
    case None => VariableRef(EncodeId(ExerciseVariables, "null"), None, None, None)
    case Some(row) => VariableRef(EncodeRowId(ExerciseVariables, row.id), Some(row.data.name), row.data.description, Some(row.data.unit))
  }

  /** `ev.name ASC`: names in order, NULL after every name. */
  predicate NullsLastLe(a: Option<string>, b: Option<string>)
  {
    b.None? || (a.Some? && LexLe(a.value, b.value))
  }

  lemma NullsLastTotal()
    ensures TotalPreorder(NullsLastLe)
  {
    forall a: Option<string>, b: Option<string>
      ensures NullsLastLe(a, b) || NullsLastLe(b, a)
    {
      if a.Some? && b.Some? {
        LexLeTotal(a.value, b.value);
      }
    }
    forall a: Option<string>, b: Option<string>, c: Option<string> | NullsLastLe(a, b) && NullsLastLe(b, c)
      ensures NullsLastLe(a, c)
    {
      if a.Some? && b.Some? && c.Some? {
        LexLeTransitive(a.value, b.value, c.value);
      }
    }
  }
}
