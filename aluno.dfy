/**
 * The user-details resolvers (src/aluno/aluno.resolvers.ts): the
 * `updateUserDetails` upsert, whose `DO UPDATE SET` list and parameter
 * array are built field by field, and the `userDetails` lookup of the
 * caller's own row.
 */
module Aluno {
  import opened Wrappers
  import opened Text
  import opened Ids
  import opened Store
  import opened Guards
  import opened Uniqueness
  import opened AlunoUtils

  /** The four optional fields of `updateUserDetails`. */
  datatype DetailsInput = DetailsInput(birthday: Option<string>, height: Option<int>, weight: Option<int>, sex: Option<string>)

  /** JavaScript truthiness of a text field and of a number field. */
  predicate TruthyText(s: Option<string>) { s.Some? && s.value != "" }
  predicate TruthyNumber(x: Option<int>) { x.Some? && x.value != 0 }

  /** The columns the builder may assign, in the order it tests them. */
  datatype Column = Birthday | Height | Weight | Sex

  /** An entry of the `values` array. */
  datatype Value = UserIdValue(id: nat) | TextValue(text: string) | IntValue(number: int)

  /** An item of the `DO UPDATE SET` list: `column = $k`, or `updated_at = CURRENT_TIMESTAMP`. */
  datatype SetItem = Assign(column: Column, placeholder: nat) | TouchUpdatedAt

  /** The entry a field contributes: its column and value when it is truthy, nothing otherwise. */
  function Part(input: DetailsInput, c: Column): seq<(Column, Value)>
  {
    match c
    case Birthday => if TruthyText(input.birthday) then [(Birthday, TextValue(input.birthday.value))] else []
    case Height => if TruthyNumber(input.height) then [(Height, IntValue(input.height.value))] else []
    case Weight => if TruthyNumber(input.weight) then [(Weight, IntValue(input.weight.value))] else []
    case Sex => if TruthyText(input.sex) then [(Sex, TextValue(input.sex.value))] else []
  }

  /** The fields the builder takes, in its order, each with the value it pushes. */
  function Supplied(input: DetailsInput): (s: seq<(Column, Value)>)
    ensures |s| <= 4
  {
    Part(input, Birthday) + Part(input, Height) + Part(input, Weight) + Part(input, Sex)
  }

  /** A value of the right kind for its column. */
  predicate Fits(c: Column, v: Value)
  {
    match c
    case Birthday => v.TextValue?
    case Height => v.IntValue?
    case Weight => v.IntValue?
    case Sex => v.TextValue?
  }

  /**
   * What the builder produces: `values[0]` is the caller; the supplied
   * fields, in order, are assigned the placeholders `$2`, `$3`, … and the
   * value at each placeholder's position is that field's value; the SET
   * list ends with `updated_at = CURRENT_TIMESTAMP`.
   */
  predicate Built(userId: nat, input: DetailsInput, fields: seq<SetItem>, values: seq<Value>)
  {
    var s := Supplied(input);
    |values| == |s| + 1 && values[0] == UserIdValue(userId)
    && |fields| == |s| + 1 && fields[|s|] == TouchUpdatedAt
    && forall i :: 0 <= i < |s| ==> fields[i] == Assign(s[i].0, i + 2) && values[i + 1] == s[i].1
  }

  /** The builder's state after pushing the fields `s`: the next placeholder is `$(|s| + 2)`. */
  predicate BuiltSoFar(userId: nat, s: seq<(Column, Value)>, fields: seq<SetItem>, values: seq<Value>, paramCount: nat)
  {
    |values| == |s| + 1 && values[0] == UserIdValue(userId) && |fields| == |s| && paramCount == |s| + 2
    && forall i :: 0 <= i < |s| ==> fields[i] == Assign(s[i].0, i + 2) && values[i + 1] == s[i].1
  }

  /** One push keeps the builder's state. */
  lemma PushKeepsBuilt(userId: nat, s: seq<(Column, Value)>, fields: seq<SetItem>, values: seq<Value>, paramCount: nat,
                       c: Column, x: Value)
    requires BuiltSoFar(userId, s, fields, values, paramCount)
    ensures BuiltSoFar(userId, s + [(c, x)], fields + [Assign(c, paramCount)], values + [x], paramCount + 1)
  {
    var s', f', v' := s + [(c, x)], fields + [Assign(c, paramCount)], values + [x];
    forall i | 0 <= i < |s'|
      ensures f'[i] == Assign(s'[i].0, i + 2) && v'[i + 1] == s'[i].1
    {
      if i < |s| {
        assert s'[i] == s[i] && f'[i] == fields[i] && v'[i + 1] == values[i + 1];
      }
    }
  }

  /** Closing the SET list with the update time completes the build. */
  lemma FinishBuilt(userId: nat, input: DetailsInput, fields: seq<SetItem>, values: seq<Value>, paramCount: nat)
    requires BuiltSoFar(userId, Supplied(input), fields, values, paramCount)
    ensures Built(userId, input, fields + [TouchUpdatedAt], values)
  {
    var s := Supplied(input);
    var f := fields + [TouchUpdatedAt];
    forall i | 0 <= i < |s|
      ensures f[i] == Assign(s[i].0, i + 2) && values[i + 1] == s[i].1
    {
      assert f[i] == fields[i];
    }
  }

  /**
   * The builder of `updateUserDetails`: for each truthy field in the order
   * birthday, height, weight, sex, push `column = $paramCount` and the
   * value, then count on; finally push the update time.
   */
  method BuildUpdate(userId: nat, input: DetailsInput) returns (updateFields: seq<SetItem>, values: seq<Value>)
    ensures Built(userId, input, updateFields, values)
  {
    updateFields := [];
    values := [UserIdValue(userId)];
    var paramCount := 2;
    ghost var pushed: seq<(Column, Value)> := [];
    if input.birthday.Some? && input.birthday.value != "" {
      PushKeepsBuilt(userId, pushed, updateFields, values, paramCount, Birthday, TextValue(input.birthday.value));
      pushed := pushed + [(Birthday, TextValue(input.birthday.value))];
      updateFields := updateFields + [Assign(Birthday, paramCount)];
      values := values + [TextValue(input.birthday.value)];
      paramCount := paramCount + 1;
    }
    assert pushed == Part(input, Birthday) && BuiltSoFar(userId, pushed, updateFields, values, paramCount);
    if input.height.Some? && input.height.value != 0 {
      PushKeepsBuilt(userId, pushed, updateFields, values, paramCount, Height, IntValue(input.height.value));
      pushed := pushed + [(Height, IntValue(input.height.value))];
      updateFields := updateFields + [Assign(Height, paramCount)];
      values := values + [IntValue(input.height.value)];
      paramCount := paramCount + 1;
    }
    assert pushed == Part(input, Birthday) + Part(input, Height) && BuiltSoFar(userId, pushed, updateFields, values, paramCount);
    if input.weight.Some? && input.weight.value != 0 {
      PushKeepsBuilt(userId, pushed, updateFields, values, paramCount, Weight, IntValue(input.weight.value));
      pushed := pushed + [(Weight, IntValue(input.weight.value))];
      updateFields := updateFields + [Assign(Weight, paramCount)];
      values := values + [IntValue(input.weight.value)];
      paramCount := paramCount + 1;
    }
    assert pushed == Part(input, Birthday) + Part(input, Height) + Part(input, Weight);
    assert BuiltSoFar(userId, pushed, updateFields, values, paramCount);
    if input.sex.Some? && input.sex.value != "" {
      PushKeepsBuilt(userId, pushed, updateFields, values, paramCount, Sex, TextValue(input.sex.value));
      pushed := pushed + [(Sex, TextValue(input.sex.value))];
      updateFields := updateFields + [Assign(Sex, paramCount)];
      values := values + [TextValue(input.sex.value)];
      paramCount := paramCount + 1;
    }
    assert pushed == Supplied(input);
    FinishBuilt(userId, input, updateFields, values, paramCount);
    updateFields := updateFields + [TouchUpdatedAt];
  }

  // ---------------------------------------------------------------------
  // What the SET list does to a row

  /** Every placeholder of the SET list names a value of the right kind. */
  predicate WellBound(items: seq<SetItem>, values: seq<Value>)
  {
    forall i :: 0 <= i < |items| && items[i].Assign? ==>
      1 <= items[i].placeholder <= |values| && Fits(items[i].column, values[items[i].placeholder - 1])
  }

  /** `column = v` on a row. */
  function AssignColumn(c: Column, v: Value, d: DetailsData): DetailsData
    requires Fits(c, v)
  {
    match c
    case Birthday => d.(birthday := Some(v.text))
    case Height => d.(height := Some(v.number))
    case Weight => d.(weight := Some(v.number))
    case Sex => d.(sex := Some(v.text))
  }

  /** The `DO UPDATE SET` list applied to the conflicting row, item by item. */
  function ApplySet(items: seq<SetItem>, values: seq<Value>, d: DetailsData, now: Time): DetailsData
    requires WellBound(items, values)
    decreases |items|
  {
    if items == [] then d
    else
      var next := match items[0]
        case Assign(c, k) => AssignColumn(c, values[k - 1], d)
        case TouchUpdatedAt => d.(updatedAt := now);
      ApplySet(items[1..], values, next, now)
  }

  /** The supplied fields assigned one after the other. */
  function ApplyPairs(s: seq<(Column, Value)>, d: DetailsData): DetailsData
    requires forall i :: 0 <= i < |s| ==> Fits(s[i].0, s[i].1)
    decreases |s|
  {
    if s == [] then d else ApplyPairs(s[1..], AssignColumn(s[0].0, s[0].1, d))
  }

  /**
   * The effect an upsert is meant to have on an existing row: each supplied
   * field takes its new value, every other column stays, and the update
   * time is now.
   */
  function Patched(input: DetailsInput, now: Time): DetailsData -> DetailsData
  {
    (d: DetailsData) => d.(
      birthday := if TruthyText(input.birthday) then input.birthday else d.birthday,
      height := if TruthyNumber(input.height) then input.height else d.height,
      weight := if TruthyNumber(input.weight) then input.weight else d.weight,
      sex := if TruthyText(input.sex) then input.sex else d.sex,
      updatedAt := now)
  }

  lemma SuppliedFit(input: DetailsInput)
    ensures forall i :: 0 <= i < |Supplied(input)| ==> Fits(Supplied(input)[i].0, Supplied(input)[i].1)
  {
  }

  lemma BuiltWellBound(userId: nat, input: DetailsInput, fields: seq<SetItem>, values: seq<Value>)
    requires Built(userId, input, fields, values)
    ensures WellBound(fields, values)
  {
    SuppliedFit(input);
    var s := Supplied(input);
    forall i | 0 <= i < |fields| && fields[i].Assign?
      ensures 1 <= fields[i].placeholder <= |values| && Fits(fields[i].column, values[fields[i].placeholder - 1])
    {
      assert i < |s|;
      assert fields[i] == Assign(s[i].0, i + 2);
    }
  }

  /** Past position `j`, the built SET list assigns the remaining supplied fields, then the update time. */
  lemma {:induction false} ApplySetSuffix(userId: nat, input: DetailsInput, fields: seq<SetItem>, values: seq<Value>,
                                          j: nat, d: DetailsData, now: Time)
    requires Built(userId, input, fields, values)
    requires j <= |Supplied(input)|
    ensures WellBound(fields[j..], values)
    ensures forall i :: 0 <= i < |Supplied(input)[j..]| ==> Fits(Supplied(input)[j..][i].0, Supplied(input)[j..][i].1)
    ensures ApplySet(fields[j..], values, d, now) == ApplyPairs(Supplied(input)[j..], d).(updatedAt := now)
    decreases |Supplied(input)| - j
  {
    var s := Supplied(input);
    BuiltWellBound(userId, input, fields, values);
    SuppliedFit(input);
    assert WellBound(fields[j..], values) by {
      forall i | 0 <= i < |fields[j..]| && fields[j..][i].Assign?
        ensures 1 <= fields[j..][i].placeholder <= |values| && Fits(fields[j..][i].column, values[fields[j..][i].placeholder - 1])
      {
        assert fields[j..][i] == fields[j + i];
      }
    }
    if j == |s| {
      assert fields[j..] == [TouchUpdatedAt];
      assert fields[j..][1..] == [];
      assert s[j..] == [];
    } else {
      var next := AssignColumn(s[j].0, s[j].1, d);
      assert fields[j..][0] == Assign(s[j].0, j + 2) && values[j + 1] == s[j].1;
      assert fields[j..][1..] == fields[j + 1..];
      assert s[j..][1..] == s[j + 1..];
      ApplySetSuffix(userId, input, fields, values, j + 1, next, now);
    }
  }

  lemma {:induction false} ApplyPairsAppend(a: seq<(Column, Value)>, b: seq<(Column, Value)>, d: DetailsData)
    requires forall i :: 0 <= i < |a| ==> Fits(a[i].0, a[i].1)
    requires forall i :: 0 <= i < |b| ==> Fits(b[i].0, b[i].1)
    ensures forall i :: 0 <= i < |a + b| ==> Fits((a + b)[i].0, (a + b)[i].1)
    ensures ApplyPairs(a + b, d) == ApplyPairs(b, ApplyPairs(a, d))
    decreases |a|
  {
    assert forall i :: 0 <= i < |a + b| ==> (a + b)[i] == if i < |a| then a[i] else b[i - |a|];
    if a != [] {
      assert (a + b)[1..] == a[1..] + b;
      ApplyPairsAppend(a[1..], b, AssignColumn(a[0].0, a[0].1, d));
    } else {
      assert a + b == b;
    }
  }

  /** The supplied fields, assigned in order, patch exactly those columns. */
  lemma ApplySupplied(input: DetailsInput, d: DetailsData)
    ensures forall i :: 0 <= i < |Supplied(input)| ==> Fits(Supplied(input)[i].0, Supplied(input)[i].1)
    ensures ApplyPairs(Supplied(input), d) == Patched(input, d.updatedAt)(d)
  {
    SuppliedFit(input);
    var pb, ph, pw, ps := Part(input, Birthday), Part(input, Height), Part(input, Weight), Part(input, Sex);
    ApplyPairsAppend(pb, ph, d);
    ApplyPairsAppend(pb + ph, pw, d);
    ApplyPairsAppend(pb + ph + pw, ps, d);
  }

  /**
   * The SET list the builder produces, applied to an existing row, changes
   * exactly the supplied fields to their new values, and the update time:
   * a falsy field leaves its column as it was.
   */
  lemma BuiltSetPatches(userId: nat, input: DetailsInput, fields: seq<SetItem>, values: seq<Value>, d: DetailsData, now: Time)
    requires Built(userId, input, fields, values)
    ensures WellBound(fields, values)
    ensures ApplySet(fields, values, d, now) == Patched(input, now)(d)
  {
    ApplySetSuffix(userId, input, fields, values, 0, d, now);
    assert fields[0..] == fields;
    assert Supplied(input)[0..] == Supplied(input);
    ApplySupplied(input, d);
  }

  // ---------------------------------------------------------------------
  // The upsert as written

  /** The number of parameters the `INSERT … VALUES ($1, $2, $3, $4, $5, …)` statement names. */
  const InsertParams := 5

  /**
   * The statement as written names `$1` to `$5` in its `VALUES` whatever
   * the SET list holds, and the database refuses a parameter array of any
   * other length.
   */
  function BindCheck(values: seq<Value>): (r: Result<()>)
    ensures r.Ok? <==> |values| == InsertParams
  {
    if |values| == InsertParams then Ok(())
    else Err("bind message supplies " + NatToString(|values|) + " parameters, but prepared statement \"\" requires 5")
  }

  /** All four fields are supplied. */
  predicate AllSupplied(input: DetailsInput)
  {
    TruthyText(input.birthday) && TruthyNumber(input.height) && TruthyNumber(input.weight) && TruthyText(input.sex)
  }

  /**
   * As written, the upsert binds only when all four fields are supplied: a
   * partial update, the case the SET builder exists for, always fails.
   */
  lemma AsWrittenNeedsAllFour(userId: nat, input: DetailsInput, fields: seq<SetItem>, values: seq<Value>)
    requires Built(userId, input, fields, values)
    ensures BindCheck(values).Ok? <==> AllSupplied(input)
  {
  }

  /** For example, supplying only a birthday is refused. */
  lemma BirthdayAloneRefused(userId: nat, fields: seq<SetItem>, values: seq<Value>)
    requires Built(userId, DetailsInput(Some("1990-01-01"), None, None, None), fields, values)
    ensures BindCheck(values).Err?
  {
    AsWrittenNeedsAllFour(userId, DetailsInput(Some("1990-01-01"), None, None, None), fields, values);
  }

  // ---------------------------------------------------------------------
  // The upsert as evidently intended

  /** `user_id` is unique in `user_details`: the conflict target of the upsert. */
  function DetailsKey(d: DetailsData): Option<nat>
  {
    Some(d.userId)
  }

  function ForUser(userId: nat): Row<DetailsData> -> bool
  {
    (d: Row<DetailsData>) => d.data.userId == userId
  }

  /** The row the insert branch creates: the supplied fields, `NULL` for the others, no photo. */
  function Fresh(userId: nat, input: DetailsInput, now: Time): DetailsData
  {
    DetailsData(userId,
                if TruthyText(input.birthday) then input.birthday else None,
                if TruthyNumber(input.height) then input.height else None,
                if TruthyNumber(input.weight) then input.weight else None,
                if TruthyText(input.sex) then input.sex else None,
                None, None, now, now)
  }

  /** With `user_id` unique, a user's row is the only one with that user. */
  lemma OnlyRowOfUser(rows: seq<Row<DetailsData>>, e: Row<DetailsData>)
    requires UniqueBy(rows, DetailsKey) && e in rows
    ensures forall i :: 0 <= i < |rows| && rows[i].data.userId == e.data.userId ==> rows[i] == e
    ensures !Clashes(rows, DetailsKey, e.data.userId, Some(e.id))
  {
    var k :| 0 <= k < |rows| && rows[k] == e;
    forall i | 0 <= i < |rows| && rows[i].data.userId == e.data.userId
      ensures rows[i] == e
    {
    }
  }

  /** The `DO UPDATE` branch on the caller's row `e`; it comes back patched. */
  method PatchDetails(details: Table<DetailsData>, e: Row<DetailsData>, input: DetailsInput, now: Time)
    returns (v: Row<DetailsData>)
    requires details.Valid() && UniqueBy(details.rows, DetailsKey) && e in details.rows
    modifies details
    ensures details.Valid() && UniqueBy(details.rows, DetailsKey)
    ensures details.rows == Updated(old(details.rows), ForUser(e.data.userId), Patched(input, now))
    ensures v in details.rows && v.id == e.id && v.data == Patched(input, now)(e.data)
  {
    ghost var before := details.rows;
    OnlyRowOfUser(before, e);
    ghost var k :| 0 <= k < |before| && before[k] == e;
    UpdateOneKeepsUnique(before, DetailsKey, ForUser(e.data.userId), e.id, Patched(input, now));
    details.UpdateWhere(ForUser(e.data.userId), Patched(input, now));
    v := Row(e.id, Patched(input, now)(e.data));
    assert details.rows[k] == v;
  }

  /**
   * `updateUserDetails(birthday, height, weight, sex)`, with each column of
   * the insert bound to its own field: a caller without a details row gets
   * one holding the supplied fields; a caller with one gets the built SET
   * list applied to it, which changes only the supplied fields. Either way
   * the row comes back mapped, and there stays one row per user.
   */
  method UpdateUserDetails(db: Database, ctx: Context, input: DetailsInput, now: Time) returns (r: Result<DetailsNode>)
    requires db.UsersValid()
    requires UniqueBy(db.details.rows, DetailsKey)
    modifies db.details
    ensures db.UsersValid()
    ensures UniqueBy(db.details.rows, DetailsKey)
    ensures ctx.user.None? ==> r == Err(Unauthorized) && db.details.rows == old(db.details.rows)
    ensures ctx.user.Some? ==>
      var existing := DetailsOf(old(db.details.rows), ctx.user.value);
      (existing.None? ==>
         var v := Row(old(db.details.nextId), Fresh(ctx.user.value, input, now));
         db.details.rows == old(db.details.rows) + [v] && r == Ok(MapAlunoRow(v)))
      && (existing.Some? ==>
            db.details.rows == Updated(old(db.details.rows), ForUser(ctx.user.value), Patched(input, now))
            && r == Ok(MapAlunoRow(Row(existing.value.id, Patched(input, now)(existing.value.data)))))
  {
    var auth := RequireAuth(ctx);
    if auth.Err? {
      return Err(auth.msg);
    }
    var u := auth.value;
    var updateFields, values := BuildUpdate(u, input);
    var existing := DetailsOf(db.details.rows, u);
    ghost var before := db.details.rows;
    if existing.None? {
      var d := Fresh(u, input, now);
      var id := db.details.Insert(d);
      AppendKeepsUnique(before, DetailsKey, Row(id, d));
      return Ok(MapAlunoRow(Row(id, d)));
    }
    var e := existing.value;
    BuiltSetPatches(u, input, updateFields, values, e.data, now);
    var patched := ApplySet(updateFields, values, e.data, now);
    var v := PatchDetails(db.details, e, input, now);
    assert v == Row(e.id, patched);
    return Ok(MapAlunoRow(v));
  }

  // ---------------------------------------------------------------------
  // `userDetails`

  const DetailsMissing := "Não existe"

  /**
   * `userDetails(user_id)`: the caller's own details row, whatever user the
   * argument names, or the refusal when the caller has none.
   */
  function UserDetailsOf(rows: seq<Row<DetailsData>>, ctx: Context, requested: Option<string>): (r: Result<DetailsNode>)
    ensures ctx.user.None? ==> r == Err(Unauthorized)
    ensures ctx.user.Some? ==>
      (r.Ok? <==> exists i :: 0 <= i < |rows| && rows[i].data.userId == ctx.user.value)
    ensures ctx.user.Some? && r.Err? ==> r.msg == DetailsMissing
    ensures r.Ok? ==> ParseRowId(AdminUser, r.value.userId) == ctx.user
                      && exists d :: d in rows && r.value == MapAlunoRow(d)
  {
    match RequireAuth(ctx)
    case Err(m) => Err(m)
    case Ok(u) =>
      match DetailsOf(rows, u)
      case None => Err(DetailsMissing)
      case Some(d) => Ok(MapAlunoRow(d))
  }

  /** After the first upsert of a user, `userDetails` finds the row it inserted. */
  lemma InsertThenRead(rows: seq<Row<DetailsData>>, u: nat, id: nat, input: DetailsInput, now: Time, requested: Option<string>)
    requires DetailsOf(rows, u).None?
    ensures UserDetailsOf(rows + [Row(id, Fresh(u, input, now))], Context(Some(u)), requested)
            == Ok(MapAlunoRow(Row(id, Fresh(u, input, now))))
  {
    var v := Row(id, Fresh(u, input, now));
    var after := rows + [v];
    assert after[|rows|] == v;
  }

  /** After an upsert, `userDetails` finds the caller's row, patched as supplied. */
  lemma UpsertThenRead(rows: seq<Row<DetailsData>>, u: nat, input: DetailsInput, now: Time, requested: Option<string>)
    requires UniqueBy(rows, DetailsKey)
    requires DetailsOf(rows, u).Some?
    ensures UserDetailsOf(Updated(rows, ForUser(u), Patched(input, now)), Context(Some(u)), requested)
            == Ok(MapAlunoRow(Row(DetailsOf(rows, u).value.id, Patched(input, now)(DetailsOf(rows, u).value.data))))
  {
    var e := DetailsOf(rows, u).value;
    var after := Updated(rows, ForUser(u), Patched(input, now));
    var k :| 0 <= k < |rows| && rows[k] == e;
    OnlyRowOfUser(rows, e);
    var f := DetailsOf(after, u).value;
    var j :| 0 <= j < |after| && after[j] == f;
    assert rows[j].data.userId == u;
    assert f == Row(e.id, Patched(input, now)(e.data));
  }
}
