/**
 * The model tags, the table of each model and the two guard errors
 * (src/shared/enums.ts), and the tagged-id codec (src/shared/utils.ts):
 * a row id is shown to clients as `TAG-id`, and decoding removes the first
 * occurrence of `TAG-` wherever it stands, without checking the tag.
 */
module Ids {
  import opened Wrappers
  import opened Text

  datatype Model =
    | Category | Exercise | AdminUser | Template | TemplateExercises
    | UserDetails | ExerciseVariables | Training | TrainingExercises

  /** The tag string of each model (the `Models` enum's values). */
  function Tag(m: Model): string
  {
    match m
    case Category => "CATEGORY"
    case Exercise => "EXERCISE"
    case AdminUser => "USER"
    case Template => "TEMPLATE"
    case TemplateExercises => "TEMPLATE-EXERCISES"
    case UserDetails => "USER-DETAILS"
    case ExerciseVariables => "EXERCISE-VARIABLES"
    case Training => "TRAINING"
    case TrainingExercises => "TRAINING-EXERCISES"
  }

  /** The `Tables` record: the SQL table of each model. */
  function TableName(m: Model): string
  {
    match m
    case Category => "categories"
    case Exercise => "exercises"
    case AdminUser => "users"
    case Template => "templates"
    case TemplateExercises => "template_exercises"
    case UserDetails => "user_details"
    case ExerciseVariables => "exercise_variables"
    case Training => "trainings"
    case TrainingExercises => "training_exercises"
  }

  /** The `Errors` enum: the two outcomes a guard can report. */
  datatype ErrorKind = NotExist | NotOwner

  /** The string value of each `Errors` member. */
  function ErrorValue(e: ErrorKind): string
  {
    match e
    case NotExist => "NOT_EXIST"
    case NotOwner => "NOT_OWNER"
  }

  /** `encodeId(type, id)`. */
  function EncodeId(m: Model, id: string): string
  {
    Tag(m) + "-" + id
  }

  /** `encodeId(type, row.id)` for a numeric row id. */
  function EncodeRowId(m: Model, id: nat): string
  {
    EncodeId(m, NatToString(id))
  }

  /**
   * `decodeId(type, encoded)`: null for an absent or empty input, otherwise
   * the input with its first occurrence of `TAG-` removed.
   */
  function DecodeId(m: Model, encoded: Option<string>): (r: Option<string>)
    ensures r.None? <==> encoded.None? || encoded.value == ""
  {
    if encoded.None? || encoded.value == "" then None
    else Some(ReplaceFirst(encoded.value, Tag(m) + "-", ""))
  }

  /** Decoding an id and reading it as an integer, as a query parameter would be read. */
  function ParseRowId(m: Model, encoded: string): Option<nat>
  {
    match DecodeId(m, Some(encoded))
    case None => None
    case Some(d) => ParseNat(d)
  }

  // ---------------------------------------------------------------------
  // Properties of the codec

  /** Decoding undoes encoding, whatever the payload: `TAG-` first occurs at index 0. */
  lemma DecodeEncode(m: Model, id: string)
    ensures DecodeId(m, Some(EncodeId(m, id))) == Some(id)
  {
    var p := Tag(m) + "-";
    var s := EncodeId(m, id);
    assert s == p + id;
    assert OccursAt(s, p, 0);
    assert s[..0] + "" + s[|p|..] == id;
  }

  /** The encoded form of a row id reads back as that row id. */
  lemma RowIdRoundTrip(m: Model, id: nat)
    ensures ParseRowId(m, EncodeRowId(m, id)) == Some(id)
  {
    DecodeEncode(m, NatToString(id));
    ParseNatToString(id);
  }

  /** A non-empty input without `TAG-` in it comes back unchanged: a foreign tag is not an error. */
  lemma DecodeUntagged(m: Model, s: string)
    requires s != ""
    requires forall j :: !OccursAt(s, Tag(m) + "-", j)
    ensures DecodeId(m, Some(s)) == Some(s)
  {
  }

  /** Replacing the first occurrence of `p`, when it starts at `k`, cuts out `s[k..k + |p|]`. */
  lemma ReplaceFirstAt(s: string, p: string, k: nat)
    requires OccursAt(s, p, k)
    requires forall j :: 0 <= j < k ==> !OccursAt(s, p, j)
    ensures ReplaceFirst(s, p, "") == s[..k] + s[k + |p|..]
  {
    var i := IndexOf(s, p);
    assert i.Some?;
    assert i.value == k;
    assert s[..k] + "" + s[k + |p|..] == s[..k] + s[k + |p|..];
  }

  /** Only the first occurrence of `TAG-` is removed, wherever it stands. */
  lemma DecodeRemovesFirstOccurrence(m: Model, a: string, b: string)
    requires forall j :: 0 <= j < |a| ==> !OccursAt(a + Tag(m) + "-" + b, Tag(m) + "-", j)
    ensures DecodeId(m, Some(a + Tag(m) + "-" + b)) == Some(a + b)
  {
    var p := Tag(m) + "-";
    var s := a + Tag(m) + "-" + b;
    assert s == a + p + b;
    assert OccursAt(s, p, |a|) by {
      assert s[|a|..|a| + |p|] == p;
    }
    ReplaceFirstAt(s, p, |a|);
    assert s[..|a|] == a && s[|a| + |p|..] == b;
  }

  /**
   * The id of a template link never reads as a template row id: decoded as
   * a template id it keeps `EXERCISES-` of its own tag, which is no number.
   */
  lemma LinkIdNotTemplateId(n: nat)
    ensures ParseRowId(Template, EncodeRowId(TemplateExercises, n)) == None
  {
    var rest := "EXERCISES-" + NatToString(n);
    assert EncodeRowId(TemplateExercises, n) == EncodeId(Template, rest);
    DecodeEncode(Template, rest);
    assert rest[0] == 'E' && !IsDigit('E');
  }

  /** The nine tags are pairwise distinct. */
  lemma TagsDistinct(m1: Model, m2: Model)
    requires m1 != m2
    ensures Tag(m1) != Tag(m2)
  {
    var a, b := Tag(m1), Tag(m2);
    assert 4 <= |a| && 4 <= |b|;
    assert |a| != |b| || a[0] != b[0] || a[1] != b[1] || a[|a| - 1] != b[|b| - 1];
  }

  /** `Tables` is injective: no two models share a table. */
  lemma TablesInjective(m1: Model, m2: Model)
    requires m1 != m2
    ensures TableName(m1) != TableName(m2)
  {
    var a, b := TableName(m1), TableName(m2);
    if |a| == |b| && a[0] == b[0] {
      assert a[1] != b[1];
    }
  }

  /** Tags are not prefix-free: four tags extend another tag followed by `-`. */
  lemma TagPrefixPairs()
    ensures (Tag(Template) + "-") <= Tag(TemplateExercises)
    ensures (Tag(Training) + "-") <= Tag(TrainingExercises)
    ensures (Tag(AdminUser) + "-") <= Tag(UserDetails)
    ensures (Tag(Exercise) + "-") <= Tag(ExerciseVariables)
  {
    assert Tag(TemplateExercises) == Tag(Template) + "-" + "EXERCISES";
    assert Tag(TrainingExercises) == Tag(Training) + "-" + "EXERCISES";
    assert Tag(UserDetails) == Tag(AdminUser) + "-" + "DETAILS";
    assert Tag(ExerciseVariables) == Tag(Exercise) + "-" + "VARIABLES";
  }
}
