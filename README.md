# PT-api core, modelled in Dafny

PT-api is the GraphQL backend of a personal-training app. A trainer
(the authenticated caller) keeps a catalogue of exercise categories,
exercises and exercise variables. From that catalogue the trainer builds
workout templates and trainings for the students ("alunos") they manage.
Students are invited by e-mail and go through a small account lifecycle.

Almost every resolver follows the same pattern. It checks the caller and
the input, runs an ownership or duplication guard, and then runs SQL.
This project models the database as an in-memory store. The model has:

- one `Table` object per SQL table, holding `seq` rows and the table's
  serial counter (`store.dfy`);
- one `Database` object holding those tables;
- queries written as filters, sorts and groupings over the rows.

On top of that store the project models:

- the tagged-id codec `TAG-n` and its model enums (`ids.dfy`);
- the authentication check and the two existence guards (`guards.dfy`);
- the forward keyset pagination shared by four listings (`paging.dfy`);
- the composite writers and readers of templates and trainings
  (`composite.dfy`, `setgroups.dfy`, `sorting.dfy`, `templates.dfy`,
  `trainings.dfy`);
- the category hierarchy, with its one-level subcategory grouping and
  cascading archive (`category_utils.dfy`, `categories.dfy`);
- exercises and exercise variables (`exercise_utils.dfy`, `exercises.dfy`,
  `variable_utils.dfy`, `variables.dfy`);
- the managed-user lifecycle (`pt_user_utils.dfy`, `pt_users.dfy`);
- the user-details upsert with its SET-clause builder (`aluno_utils.dfy`,
  `aluno.dfy`).

Resolvers that change tables are methods on the `Database`. Each one
states its whole new state against a specification function of the old
state, and each keeps the uniqueness invariant its duplication check
protects: no two live rows of one owner share a name or e-mail within
their scope. The step-by-step code of the source is modelled as methods, each proved
against a function whose properties are proved as lemmas. The ones that
loop carry loop invariants: the parameter-pushing `forEach` of the link
insert (`Composite.LinkValues`), the nested `forEach` loops that flatten
sets (`Composite.CollectVariables`), the statement loop over exercises
(`Composite.WriteAllSets`), the `setMap` grouping
(`SetGroups.GroupBySetNumber`), the `reduce` of `getSubcategories`
(`CategoryUtils.GatherRows`), the three loops of `editTraining`
(`Trainings.PatchVariables`, `PatchSets`, `PatchExercises`) and the
multi-row insert (`Store.Table.InsertAll`). The `rows.pop()` of
pagination (`Paging.KeysetPage`) and the `paramCount++` builder of
`updateUserDetails` (`Aluno.BuildUpdate`) are straight-line methods,
proved against `IsKeysetPage` and `Built`.

Conventions:

- **Identifiers:** a caller id is a natural number. A decoded id bound to
  an integer column is read as a string of decimal digits; any other text
  fails the query with the database's "invalid input syntax for type
  integer" error. A NULL id matches no row. The database's own integer
  syntax is wider and bounded (see "Left out").
- **Time:** timestamps are whole milliseconds passed in by the caller
  (`now`). "Seven days later" is `now` plus a week of milliseconds.
- **Cursors:** a cursor is the text its base64 form decodes to.
- **Injected outside effects:** random tokens, the password hash, and the
  outcome of a photo upload or deletion are parameters.

## Model

| member | source | states |
|---|---|---|
| Ids.DecodeId | src/shared/utils.ts:7-10 | null exactly for an absent or empty input |
| Ids.DecodeEncode | src/shared/utils.ts:3-10 | decoding an encoded id gives back the payload, whatever it is, because `TAG-` first occurs at index 0 |
| Ids.RowIdRoundTrip | src/shared/utils.ts:3-10 | the encoded form of a row id reads back as that integer id |
| Ids.DecodeUntagged | src/shared/utils.ts:9 | a non-empty input with no `TAG-` in it comes back unchanged; a foreign tag is never an error |
| Ids.DecodeRemovesFirstOccurrence | src/shared/utils.ts:9 | only the first occurrence of `TAG-` is removed, wherever it stands |
| Ids.LinkIdNotTemplateId | src/shared/utils.ts:9 | for every row id, the id of a template link decoded as a template id keeps `EXERCISES-` and never parses as a row id |
| Ids.TagsDistinct | src/shared/enums.ts:1-11 | the nine `Models` tags are pairwise distinct |
| Ids.TablesInjective | src/shared/enums.ts:13-23 | `Tables` maps distinct models to distinct tables |
| Ids.TagPrefixPairs | src/shared/enums.ts:2-10 | the four pairs TEMPLATE/TEMPLATE-EXERCISES, TRAINING/TRAINING-EXERCISES, USER/USER-DETAILS and EXERCISE/EXERCISE-VARIABLES are tag-and-prefix pairs |
| Guards.RequireAuth | src/user/utils.ts:4-8 | refuses with "Não autorizado" exactly when there is no user, otherwise yields the caller's id |
| Guards.CheckExistenceAndOwnership | src/user/utils.ts:10-25 | no error exactly when a row has both the id and the caller as owner; `NotOwner` never comes back; an id that is not an integer fails the query |
| Guards.ForeignRowIsNotExist | src/user/utils.ts:15-24 | a row owned by someone else is reported as `NotExist` |
| Guards.CheckExistence | src/user/utils.ts:27-39 | `NotExist` exactly when no row has the id |
| Guards.CheckExistenceIgnoresCaller | src/user/utils.ts:27-39 | the answer does not depend on `userId` |
| Guards.LocalizedError | src/templates/utils.ts:34-43 | the shape of every module's `errorMessage`: not-found text, "Não autorizado", or "Erro" for anything else |
| Guards.OwnedTarget | src/templates/templates.resolvers.ts:256-265 | a guard used as the resolvers use it: success exactly when the guard passes, yielding the decoded row id; otherwise the module's message or the binding error |
| Paging.AfterId | src/templates/templates.resolvers.ts:34-57 | no bound for an absent or empty cursor, the integer for digits, a database error for any other text |
| Paging.CursorRoundTrip | src/templates/templates.resolvers.ts:70-73 | the cursor of a row reads back as its id |
| Paging.KeysetPage | src/templates/templates.resolvers.ts:59-85 | the `LIMIT first + 1` fetch and the pop yield the keyset page: the first `first` matching rows with their cursors, `hasNextPage` exactly when more match, no previous page, and start and end cursors from the first and last edge (null when empty) |
| Paging.PageBounds | src/templates/templates.resolvers.ts:59-68 | at most `first` edges; a full page when there is a next page; all matching rows when there is not |
| Paging.AboveCursorSound | src/templates/templates.resolvers.ts:38-59 | the rows read pass the filter, lie beyond the cursor and ascend by id, and every such row is read |
| Paging.NextPageContinues | src/templates/templates.resolvers.ts:53-59 | following a row's cursor yields exactly the matching rows after it, so pages neither skip nor repeat |
| Paging.PageFromRows | src/templates/templates.resolvers.ts:70-73 | every edge comes from a table row that passes the filter and lies beyond the cursor, and carries that row's cursor |
| Paging.SearchPattern | src/templates/templates.resolvers.ts:47-50 | a pattern only for a term that is not blank once trimmed; the pattern is the trimmed term |
| Sorting.SortByPermutes | src/category/category.resolvers.ts:22 | `ORDER BY` keeps every row as many times as it occurs |
| Sorting.SortBySorted | src/category/category.resolvers.ts:22 | `ORDER BY` on a total preorder yields the rows in order |
| SetGroups.GroupBySetNumber | src/templates/templates.resolvers.ts:472-493 | the `setMap` loop yields one group per distinct set number in order of first occurrence, each holding its rows' values in row order |
| SetGroups.EveryRowGrouped | src/templates/templates.resolvers.ts:474-491 | the group sizes add up to the number of rows |
| SetGroups.RowInItsSet | src/templates/templates.resolvers.ts:474-491 | each row sits in the one group with its set number |
| SetGroups.DistinctKeysAscending | src/templates/templates.resolvers.ts:467 | rows ordered by set number give groups in ascending set number |
| SetGroups.SortedGroupsOrdered | src/templates/templates.resolvers.ts:455-493 | sorted then grouped rows give strictly ascending set numbers, each set in the second order, every row once |
| Composite.StoredTarget | src/templates/templates.resolvers.ts:177 | an empty or absent target is stored as NULL, any other is kept |
| Composite.ExerciseRefOfEncoded | src/templates/templates.resolvers.ts:144 | an exercise id of the API decodes to its row id |
| Composite.LinkRows | src/templates/templates.resolvers.ts:137-159 | one link per input exercise, in input order, with the decoded exercise and its position; the statement fails when any exercise id is not an integer |
| Composite.LinkValues | src/templates/templates.resolvers.ts:141-147 | the `forEach` that pushes the link parameters computes exactly those link rows |
| Composite.FlatVarsAt | src/templates/templates.resolvers.ts:168-180 | variable `k` of set `j` sits after every variable of the earlier sets, with that set's number, the decoded variable and the stored target |
| Composite.CollectVariables | src/templates/templates.resolvers.ts:166-180 | the nested `forEach` builds exactly the flattened list |
| Composite.BindVars | src/templates/templates.resolvers.ts:192-208 | one set-variable row per pending row; the statement fails when any variable id is not an integer |
| Composite.ChildVarsComplete | src/templates/templates.resolvers.ts:161-211 | every statement runs exactly when every exercise's variables bind |
| Composite.ChildVarsCount | src/templates/templates.resolvers.ts:161-211 | when they all run, one row per (set, variable) of the input |
| Composite.ChildVarsLinks | src/templates/templates.resolvers.ts:161-211 | every set-variable row written belongs to one of the links just inserted |
| Composite.ChildVarsStops | src/templates/templates.resolvers.ts:161-211 | once a statement fails, later exercises write nothing |
| Composite.WriteSets | src/templates/templates.resolvers.ts:165-210 | an exercise's set-variable insert appends its flattened rows, or changes nothing when a variable id fails to bind |
| Composite.WriteAllSets | src/templates/templates.resolvers.ts:161-211 | the loop over exercises writes each exercise's rows under its link id, up to the first failing statement |
| Composite.WriteChildren | src/templates/templates.resolvers.ts:137-211 | the link insert then the set-variable inserts append exactly the specified rows; a failure leaves what ran before it |
| Composite.ReplaceChildren | src/templates/templates.resolvers.ts:282-361 | the parent's links are deleted, with their set variables under an assumed cascade, and the new list is written |
| Composite.ReplacedLinks | src/templates/templates.resolvers.ts:282-309 | after a replacement the parent's links are exactly the new ones, in input order |
| Composite.ReplacedNoOrphans | src/templates/templates.resolvers.ts:282-285 | if every set-variable row hung from an existing link before the replacement, every one still does after it, whether or not the new list was written |
| Composite.LookupVariable | src/templates/templates.resolvers.ts:465 | the left join finds the catalogue row with that id, or none |
| Composite.LinkParamOfEncoded | src/templates/templates.resolvers.ts:470 | a link id handed to the reader decodes back to that link |
| Composite.JoinedRowsSound | src/templates/templates.resolvers.ts:456-466 | every joined row is a set-variable row of the link, carrying its id, set number and target, joined with its catalogue variable |
| Composite.JoinedRowsComplete | src/templates/templates.resolvers.ts:456-466 | every set-variable row of the link appears, joined with its catalogue variable |
| Composite.VariableRefOf | src/templates/templates.resolvers.ts:483-488 | the variable object of an entry; a missing variable encodes as `EXERCISE-VARIABLES-null` with null name and unit |
| Composite.NullsLastTotal | src/templates/templates.resolvers.ts:467 | `ev.name ASC` with NULLs last is a total preorder |
| TemplateUtils.MapTemplateRow | src/templates/utils.ts:5-11 | the id is `TEMPLATE-` and the row id, and reads back; the columns are copied |
| TemplateUtils.CheckDuplication | src/templates/utils.ts:13-32 | refuses with "Template já existe" exactly when another live template of the owner has that name, the excluded id aside |
| TemplateUtils.ErrorMessage | src/templates/utils.ts:34-43 | `NotExist` gives "Template não encontrado", `NotOwner` gives "Não autorizado" |
| Templates.ListTemplates | src/templates/templates.resolvers.ts:15-86 | refuses without a caller, for `first < 0` and for a cursor that is not an integer, in that order; otherwise the keyset page over the caller's live templates that match the search |
| Templates.ListedTemplatesVisible | src/templates/templates.resolvers.ts:38-59 | every listed template is the caller's, live, matching the search, beyond the cursor |
| Templates.InsertTemplate | src/templates/templates.resolvers.ts:123-221 | the transaction appends the template, its links and their set variables, or leaves all three tables as they were |
| Templates.CreateTemplate | src/templates/templates.resolvers.ts:89-222 | the caller, then name and a non-empty exercise list, then the duplication check, all before any write; success exactly when every statement and the upload succeed; the owner's live names stay unique |
| Templates.UpdateTarget | src/templates/templates.resolvers.ts:249-267 | the checks before the first write: caller, fields, ownership of the decoded id, duplication excluding the template itself |
| Templates.RenameTemplate | src/templates/templates.resolvers.ts:272-280 | only the name, description and update time of the one template change; names stay unique |
| Templates.UpdateTemplate | src/templates/templates.resolvers.ts:223-372 | after the checks, the rename and the replacement of the children stay in place even when a later statement fails (no BEGIN) |
| Templates.RenameKeepsUnique | src/templates/templates.resolvers.ts:267-279 | a rename that passed the check with itself excluded keeps names unique |
| Templates.DeleteTemplate | src/templates/templates.resolvers.ts:373-396 | archives the caller's template after the guard, then the photo deletion; answers with the given id |
| Templates.ArchivedTemplateHidden | src/templates/templates.resolvers.ts:388-391 | an archived template leaves every listing and every duplication scope |
| Templates.SetEntries | src/templates/templates.resolvers.ts:456-471 | one entry per joined row of the link, keyed by its set number |
| Templates.TemplateSets | src/templates/templates.resolvers.ts:455-494 | the reader's answer is the grouping of the link's rows sorted by set number then variable name; an undecodable link id fails the query |
| Templates.TemplateSetsOrdered | src/templates/templates.resolvers.ts:467-493 | set numbers strictly ascend, each set's variables are in name order, every row lands in exactly one set |
| Templates.NameLeTotal | src/templates/templates.resolvers.ts:467 | the order by set number then name is total |
| TrainingUtils.MapTrainingRow | src/trainings/utils.ts:5-11 | the id is `TRAINING-` and the row id, and reads back; the columns are copied |
| TrainingUtils.CheckDuplication | src/trainings/utils.ts:13-34 | refuses with "Treino já existe" exactly when another live training of the owner for that target has the name; a target that is not an integer fails the query |
| TrainingUtils.SameNameOtherTarget | src/trainings/utils.ts:24 | the same name is free for another target |
| TrainingUtils.ErrorMessage | src/trainings/utils.ts:36-45 | `NotExist` gives "Treino não encontrado", `NotOwner` gives "Não autorizado" |
| Trainings.ListedNodesSound | src/trainings/trainings.resolvers.ts:38-47 | every listed training is the caller's, live, for that target |
| Trainings.ListedNodesComplete | src/trainings/trainings.resolvers.ts:38-47 | every live training of the caller for that target is listed |
| Trainings.ListTrainings | src/trainings/trainings.resolvers.ts:14-48 | the caller, a required target, ownership of the target user, then all the matching trainings without paging |
| Trainings.InsertTraining | src/trainings/trainings.resolvers.ts:92-193 | the transaction appends the training, its links and set variables, then the upload or else one photo row of the given photo; a failure restores the tables |
| Trainings.CreateTraining | src/trainings/trainings.resolvers.ts:51-194 | name, exercises and target required; the (owner, name, target) check before any write; the row carries the decoded target; names stay unique per target |
| Trainings.PatchOne | src/trainings/trainings.resolvers.ts:242-251 | one update fails exactly when its row id is not an integer |
| Trainings.PatchAllAppend | src/trainings/trainings.resolvers.ts:239-254 | running two update lists in turn is running their concatenation |
| Trainings.PatchAllMeaning | src/trainings/trainings.resolvers.ts:239-254 | a successful run keeps every row, its id, link, set and variable; only `target_value` changes, to the last update naming the row |
| Trainings.PatchAllFails | src/trainings/trainings.resolvers.ts:239-254 | the updates fail exactly when some listed id is not an integer |
| Trainings.PatchVariables | src/trainings/trainings.resolvers.ts:241-252 | the innermost loop leaves the table as the specification of its updates |
| Trainings.PatchSets | src/trainings/trainings.resolvers.ts:240-253 | the middle loop likewise, over the sets in order |
| Trainings.PatchExercises | src/trainings/trainings.resolvers.ts:239-254 | the outer loop likewise, over the exercises in order |
| Trainings.PatchInTransaction | src/trainings/trainings.resolvers.ts:237-267 | either every update is applied, or on an unbindable row id the set-variable table is exactly as before |
| Trainings.EditTraining | src/trainings/trainings.resolvers.ts:195-271 | exercises and id required, then ownership; only target values change; a failed update rolls them back; answers with the unmodified training row |
| Trainings.SetEntries | src/trainings/trainings.resolvers.ts:327-342 | one entry per joined row of the link, carrying the row id, keyed by set number |
| Trainings.TrainingSets | src/trainings/trainings.resolvers.ts:326-365 | the grouping of the link's rows sorted by set number then name |
| Trainings.TrainingSetsOrdered | src/trainings/trainings.resolvers.ts:339-364 | set numbers strictly ascend, names in order within a set, every row in exactly one set |
| Trainings.NameLeTotal | src/trainings/trainings.resolvers.ts:339 | the order by name is total |
| CategoryUtils.MapCategoryRow | src/category/utils.ts:5-14 | the id is `CATEGORY-` and the row id; the parent is null exactly when it is falsy, otherwise encoded; the subcategories as given |
| CategoryUtils.ErrorMessage | src/category/utils.ts:16-25 | `NotExist` gives "Categoria não encontrada", `NotOwner` gives "Não autorizado" |
| CategoryUtils.CheckDuplication | src/category/utils.ts:27-57 | the root scope for a falsy parent, the parent's scope otherwise; refuses with "Categoria já existe" exactly when another live category of the owner in that scope has the name |
| CategoryUtils.Leaves | src/category/utils.ts:76 | each child mapped without subcategories |
| CategoryUtils.GatherFoldMeaning | src/category/utils.ts:72-78 | after the `reduce`, each parent key holds exactly its children in row order, and parents without children are absent |
| CategoryUtils.GatherRows | src/category/utils.ts:72-78 | the loop computes the fold |
| CategoryUtils.GetSubcategories | src/category/utils.ts:59-79 | `{}` for no parents; otherwise a key for each asked parent that has live children of the caller, holding them in row order |
| CategoryUtils.NarrowedChildren | src/category/utils.ts:65-70 | the query's rows hold all children of an asked parent and none of another |
| Categories.SortedRoots | src/category/category.resolvers.ts:18-23 | exactly the caller's live roots, ordered by update time descending then name |
| Categories.Attach | src/category/category.resolvers.ts:30-32 | each root mapped with its own children |
| Categories.LookupChildren | src/category/category.resolvers.ts:26-32 | reading the gathered map root by root gives each root its children, or `[]` |
| Categories.ListCategories | src/category/category.resolvers.ts:15-33 | refuses without a caller; otherwise the listing of sorted roots with children |
| Categories.RootsMeaning | src/category/category.resolvers.ts:18-23 | the sorted roots are the caller's live roots, no more and no fewer |
| Categories.ListingComplete | src/category/category.resolvers.ts:15-33 | every live root of the caller is listed with exactly its own live children |
| Categories.ListingSound | src/category/category.resolvers.ts:15-33 | every listed node is such a root |
| Categories.ListingOrdered | src/category/category.resolvers.ts:22 | the listing runs from the newest update down, by name among equal times |
| Categories.AddCategory | src/category/category.resolvers.ts:36-59 | the check in the decoded parent's scope, then one new row with a falsy parent stored as NULL; names stay unique per scope |
| Categories.EditTarget | src/category/category.resolvers.ts:65-95 | the caller, ownership, duplication in the new parent's scope excluding itself, and the binding of the parent |
| Categories.MoveKeepsUnique | src/category/category.resolvers.ts:81-96 | a move that passed the check keeps names unique per scope |
| Categories.MoveCategory | src/category/category.resolvers.ts:88-96 | only name, parent and update time of the one category change |
| Categories.EditCategory | src/category/category.resolvers.ts:60-99 | after the checks the category is renamed and moved and comes back without subcategories; otherwise nothing changes |
| Categories.DecodedIds | src/category/category.resolvers.ts:119-125 | each gathered child's id decodes to its row id |
| Categories.FamilyMeaning | src/category/category.resolvers.ts:115-127 | the blocking ids are the category and its live children of the caller, one level only |
| Categories.GatherFamily | src/category/category.resolvers.ts:115-127 | the computed list is that family, longer than one exactly when there are children |
| Categories.BlockingMeaning | src/category/category.resolvers.ts:129-138 | the delete is blocked exactly when an exercise of the caller, archived or not, sits in the family |
| Categories.FindBlocking | src/category/category.resolvers.ts:115-133 | the queries before the delete find those exercises and whether there are children |
| Categories.ArchiveFamily | src/category/category.resolvers.ts:140-150 | the archiving updates; names stay unique |
| Categories.DeleteCategory | src/category/category.resolvers.ts:100-153 | after the guard, blocked deletes change nothing; otherwise every child, then the category, is archived; answers with the given id |
| Categories.CascadeArchives | src/category/category.resolvers.ts:140-150 | after a delete the category is archived, no live child of the caller is left, and every other row is as it was |
| ExerciseUtils.MapExerciseRow | src/exercise/utils.ts:5-12 | the id under `EXERCISE`, the category under `CATEGORY`, both reading back |
| ExerciseUtils.CategoriesExercises | src/exercise/utils.ts:14-22 | exactly the caller's exercises in the given categories, archived ones included |
| ExerciseUtils.CheckDuplication | src/exercise/utils.ts:24-43 | refuses with "Exercício já existe" exactly when another live exercise of the owner has that name |
| ExerciseUtils.ErrorMessage | src/exercise/utils.ts:45-54 | `NotExist` gives "Exercício não encontrado", `NotOwner` gives "Não autorizado" |
| Exercises.Scope | src/exercise/exercise.resolvers.ts:50-72 | no narrowing for a falsy category; otherwise the category with its subcategories; an id that is not an integer fails |
| Exercises.FindScope | src/exercise/exercise.resolvers.ts:50-72 | the lookup computes that scope |
| Exercises.ListExercises | src/exercise/exercise.resolvers.ts:18-114 | errors in source order, then the keyset page over the caller's live exercises in scope that match the search |
| Exercises.ListedExercisesInCategory | src/exercise/exercise.resolvers.ts:41-86 | narrowed to a category, every listed exercise is the caller's, live, beyond the cursor, in the category or one of its live children |
| Exercises.AddTarget | src/exercise/exercise.resolvers.ts:122-140 | the fields, then the category guard with category messages, then the duplication check |
| Exercises.AddExercise | src/exercise/exercise.resolvers.ts:117-151 | one new exercise of the caller, or nothing; names stay unique |
| Exercises.EditTarget | src/exercise/exercise.resolvers.ts:159-187 | category ownership before exercise ownership, then duplication excluding itself |
| Exercises.ReviseKeepsUnique | src/exercise/exercise.resolvers.ts:187-197 | an edit that passed the check keeps names unique |
| Exercises.ReviseExercise | src/exercise/exercise.resolvers.ts:189-197 | only name, category, url and update time of the one exercise change |
| Exercises.EditExercise | src/exercise/exercise.resolvers.ts:152-199 | after the checks the exercise comes back revised; otherwise nothing changes |
| Exercises.DeleteExercise | src/exercise/exercise.resolvers.ts:200-221 | archives only after the guard; answers with the given id |
| Exercises.ArchivedNotListed | src/exercise/exercise.resolvers.ts:215-218 | an archived exercise is on no later page |
| Exercises.JoinedCategory | src/exercise/exercise.resolvers.ts:226-232 | the category of the exercise, when both rows exist |
| Exercises.Lineage | src/exercise/exercise.resolvers.ts:233-248 | `[parent, category]` when the category has an existing parent, else `[category]` |
| Exercises.AllCategories | src/exercise/exercise.resolvers.ts:224-249 | the lineage of the exercise's category; a bad id fails the query and a missing row crashes the resolver |
| Exercises.AllCategoriesOfMapped | src/exercise/exercise.resolvers.ts:224-249 | on an exercise the API returned, the answer is its category's lineage |
| VariableUtils.MapExerciseVariableRow | src/exercise_categories/utils.ts:5-10 | the id is `EXERCISE-VARIABLES-` and the row id, and reads back; the columns are copied |
| VariableUtils.CheckDuplication | src/exercise_categories/utils.ts:12-31 | refuses with "Variavel já existe" exactly when another live variable of the owner has the name; the exclusion is bound only when given |
| VariableUtils.ErrorMessage | src/exercise_categories/utils.ts:33-42 | `NotExist` gives "Variavel não encontrado", `NotOwner` gives "Não autorizado" |
| Variables.ListVariables | src/exercise_categories/exercise_categories.resolvers.ts:13-84 | errors for no caller, `first < 0` and a bad cursor; otherwise the keyset page over the caller's live variables that match the search |
| Variables.ListedVariablesVisible | src/exercise_categories/exercise_categories.resolvers.ts:35-66 | every listed variable is the caller's, live, matching, beyond the cursor |
| Variables.AddCheck | src/exercise_categories/exercise_categories.resolvers.ts:97-104 | name and unit required, description optional, then the duplication check |
| Variables.AddVariable | src/exercise_categories/exercise_categories.resolvers.ts:86-115 | one new variable of the caller or nothing; names stay unique |
| Variables.EditTarget | src/exercise_categories/exercise_categories.resolvers.ts:128-146 | id, name and unit required, ownership, then duplication excluding itself |
| Variables.ReviseKeepsUnique | src/exercise_categories/exercise_categories.resolvers.ts:146-157 | an edit that passed the check keeps names unique |
| Variables.ReviseVariable | src/exercise_categories/exercise_categories.resolvers.ts:148-157 | only name, unit, description and update time of the one variable change |
| Variables.EditVariable | src/exercise_categories/exercise_categories.resolvers.ts:116-159 | after the checks the variable comes back revised; otherwise nothing changes |
| Variables.EditTouchesOnlyTarget | src/exercise_categories/exercise_categories.resolvers.ts:148-153 | every other row, and every other column of the target, is unchanged |
| Variables.DeleteVariable | src/exercise_categories/exercise_categories.resolvers.ts:161-182 | archives only after the guard; answers with the given id |
| Variables.ArchivedNotListed | src/exercise_categories/exercise_categories.resolvers.ts:176-179 | an archived variable leaves every listing |
| PtUserUtils.MapUserRow | src/pt_user/utils.ts:5-18 | the id is `USER-` and the row id, and reads back; the status is upper-cased; the columns are under their aliases |
| PtUserUtils.StatusNames | src/pt_user/utils.ts:9 | the four statuses read back as four distinct upper-case words |
| PtUserUtils.CheckDuplication | src/pt_user/utils.ts:20-39 | refuses exactly when another live user the caller created has the e-mail |
| PtUserUtils.ErrorMessage | src/pt_user/utils.ts:41-50 | `NotExist` gives "Aluno não encontrado", `NotOwner` gives "Não autorizado" |
| PtUsers.TokenExpiry | src/pt_user/pt_user.resolvers.ts:124-125 | a token expires after it is issued |
| PtUsers.VisibleUser | src/pt_user/pt_user.resolvers.ts:28-35 | the caller's unarchived user with the id, when there is one |
| PtUsers.AdminUserById | src/pt_user/pt_user.resolvers.ts:13-44 | succeeds exactly when the id decodes to one of the caller's unarchived users, and answers with that user; otherwise not found, a bad id, or a crash without a user |
| PtUsers.UserSearch | src/pt_user/pt_user.resolvers.ts:68-72 | the search applies only to a term that is not blank once trimmed, and uses the untrimmed term |
| PtUsers.ListAdminUsers | src/pt_user/pt_user.resolvers.ts:45-109 | a keyset page over the caller's unarchived users, with the lower-cased status filter and the search; no guard on `first`, so `-1` gives an empty page with a next page and below that the database refuses the LIMIT |
| PtUsers.ListedUsersVisible | src/pt_user/pt_user.resolvers.ts:53-80 | every listed user is the caller's, unarchived, matching the filter, beyond the cursor |
| PtUsers.TransitionsFollowLifecycle | src/pt_user/pt_user.resolvers.ts:233-386 | each mutation moves the status along the lifecycle (pending to active; active and deactivated both ways; anything to archived) and keeps creator, e-mail, name, role and creation time |
| PtUsers.TransitionsKeepEmailScope | src/pt_user/pt_user.resolvers.ts:233-386 | no transition but delete moves a user in or out of the e-mail duplication scope; delete takes it out |
| PtUsers.Transit | src/pt_user/pt_user.resolvers.ts:233-241 | a scope-preserving update of one user keeps e-mails unique |
| PtUsers.AddCheck | src/pt_user/pt_user.resolvers.ts:112-122 | name and e-mail required, then the e-mail check |
| PtUsers.AddUser | src/pt_user/pt_user.resolvers.ts:112-173 | one new pending user of role 2 with a token valid for seven days, or nothing; e-mails stay unique |
| PtUsers.RegistrationTarget | src/pt_user/pt_user.resolvers.ts:215-221 | the first pending user holding the unexpired token |
| PtUsers.SetPassword | src/pt_user/pt_user.resolvers.ts:207-248 | short passwords refused before any lookup; otherwise the pending user with the token becomes active with the hash stored and the token cleared, or the link is refused |
| PtUsers.TokenSingleUse | src/pt_user/pt_user.resolvers.ts:230-243 | after a successful `setPassword` the token names no user |
| PtUsers.ResendTarget | src/pt_user/pt_user.resolvers.ts:256-272 | a pending user with the id is required, and a deactivated one is refused; ownership is not checked |
| PtUsers.ResendRegistration | src/pt_user/pt_user.resolvers.ts:249-314 | replaces the token, its expiry and the update time, and nothing else, or changes nothing |
| PtUsers.ReissuedTokenRedeems | src/pt_user/pt_user.resolvers.ts:276-286 | the new token redeems for that user until it expires |
| PtUsers.ResendRevokesOldToken | src/pt_user/pt_user.resolvers.ts:276-286 | the replaced token no longer names the user |
| PtUsers.StatusTarget | src/pt_user/pt_user.resolvers.ts:315-326 | the caller and the ownership guard on the decoded id |
| PtUsers.DeleteUser | src/pt_user/pt_user.resolvers.ts:315-339 | archives the one user after the guard; answers with the given id |
| PtUsers.DeletedUserNotFound | src/pt_user/pt_user.resolvers.ts:328-336 | after a delete `adminUser` reports the user as not found |
| PtUsers.UpdateUser | src/pt_user/pt_user.resolvers.ts:353-362 | the returned row is the one updated row |
| PtUsers.ActivateUser | src/pt_user/pt_user.resolvers.ts:340-365 | the user becomes active with no deactivation time, whatever its status was |
| PtUsers.DeactivateUser | src/pt_user/pt_user.resolvers.ts:366-389 | the user becomes deactivated at `now` |
| PtUsers.ActivateRevivesArchived | src/pt_user/pt_user.resolvers.ts:353-362 | activating a deleted user makes it active again while its archive time keeps it out of the e-mail scope |
| PtUsers.EditCheckAsWritten | src/pt_user/pt_user.resolvers.ts:174-194 | the checks as written: the duplication check is given the new name |
| PtUsers.EditAsWrittenAdmitsDuplicate | src/pt_user/pt_user.resolvers.ts:194 | with the checks as written, an edit can give a user another live user's e-mail |
| PtUsers.EditCheck | src/pt_user/pt_user.resolvers.ts:174-194 | the checks with the e-mail passed to the duplication check |
| PtUsers.RenameKeepsUnique | src/pt_user/pt_user.resolvers.ts:194-205 | an edit that passed the e-mail check keeps e-mails unique |
| PtUsers.EditUser | src/pt_user/pt_user.resolvers.ts:174-206 | after the corrected checks only name, e-mail and update time change; e-mails stay unique |
| PtUsers.UserPhoto | src/pt_user/pt_user.resolvers.ts:392-408 | the photo of the user's details row, when there is one |
| PtUsers.ProfileDetails | src/pt_user/pt_user.resolvers.ts:411-424 | the user's details row mapped, when there is one |
| PtUsers.ProfileOfMappedUser | src/pt_user/pt_user.resolvers.ts:392-424 | on a user the API returned, both fields succeed and are present exactly when a details row exists |
| AlunoUtils.MapAlunoRow | src/aluno/utils.ts:4-12 | the id under `USER-DETAILS`, the user under `USER`, both reading back; the photo and time columns copied |
| AlunoUtils.DetailsOf | src/aluno/aluno.resolvers.ts:120-124 | the first details row of the user, present exactly when one exists |
| Aluno.Supplied | src/aluno/aluno.resolvers.ts:24-46 | at most four supplied fields, in the order birthday, height, weight, sex |
| Aluno.BuildUpdate | src/aluno/aluno.resolvers.ts:20-48 | `values[0]` is the caller; each truthy field gets the next placeholder from `$2` and its value; falsy fields are in neither list; `updated_at` is last |
| Aluno.BuiltWellBound | src/aluno/aluno.resolvers.ts:20-48 | every placeholder of the SET list has a value |
| Aluno.ApplySetSuffix | src/aluno/aluno.resolvers.ts:53-54 | applying a SET list item by item composes |
| Aluno.BuiltSetPatches | src/aluno/aluno.resolvers.ts:53-54 | on conflict only the supplied fields change, and the update time |
| Aluno.BindCheck | src/aluno/aluno.resolvers.ts:50-58 | the statement binds only with exactly five values |
| Aluno.AsWrittenNeedsAllFour | src/aluno/aluno.resolvers.ts:50-58 | as written the upsert succeeds only when all four fields are supplied |
| Aluno.BirthdayAloneRefused | src/aluno/aluno.resolvers.ts:50-58 | a birthday alone is refused with the bind error |
| Aluno.PatchDetails | src/aluno/aluno.resolvers.ts:53-55 | the conflict branch updates the caller's one row and returns it |
| Aluno.UpdateUserDetails | src/aluno/aluno.resolvers.ts:14-60 | the corrected upsert: a first call inserts a row with the supplied fields; later calls patch only the supplied fields; one row per user |
| Aluno.UserDetailsOf | src/aluno/aluno.resolvers.ts:117-131 | the caller's own row, whatever `user_id` was asked; "Não existe" without one |
| Aluno.UpsertThenRead | src/aluno/aluno.resolvers.ts:14-131 | after an upsert that updates the caller's existing row, `userDetails` answers with the row the upsert returned |
| Aluno.InsertThenRead | src/aluno/aluno.resolvers.ts:14-131 | after the first upsert of a user, which inserts a fresh row, `userDetails` answers with that new row |

## Left out

- HTTP and GraphQL wiring, JWT verification and the `login`/`me` resolvers live in src/index.ts and src/user/user.resolvers.ts. They are not part of this model: they are server plumbing and foreign libraries.
- E-mail sending in `addUser` and `resendRegistrationEmail` is network I/O and is not modelled; send_email.ts is not part of this model.
- `uploadProfilePhoto` is not modelled. It calls Cloudinary for the upload and the destroy.
- `uploadFile` and `deletePhoto` are imported from a module that is not part of this model. Their outcome is a parameter (`uploadError`, `photoError`).
- The `Template.photo`, `Template.exercises`, `TemplateExercise.exercise`, `Training.photo`, `Training.exercises` and `TrainingExercise.exercise` field resolvers are not modelled. Each is one lookup, and the two `exercises` queries have no `ORDER BY`, so they promise no order.
- The SQL text and the placeholder strings are not modelled. Queries are filters and sorts over the rows; the only parameter list modelled is the one `updateUserDetails` builds.
- PageSize (`Paging.PageSize`), affecting `Templates.ListTemplates`, `Exercises.ListExercises`, `Variables.ListVariables`, `PtUsers.ListAdminUsers`: the `first` argument is absent or a number. An explicit `first: null` is not modelled. In the source the default does not apply to it, `null < 0` is false, `LIMIT null + 1` reads one row, and `rows.length > null` then holds, so one matching row yields an empty page with `hasNextPage: true`.
- Base64 around cursors is not modelled. A cursor is its decoded text.
- Contains (`Text.Contains`, used by `Paging.MatchesSearch`): `ILIKE` is modelled as a case-sensitive substring test. Its case folding is not modelled, and neither are its wildcards: a `%`, `_` or `\` in the search term (src/exercise/exercise.resolvers.ts:76, src/pt_user/pt_user.resolvers.ts:71) acts as a pattern character in the database and as a literal character in the model.
- ParseNat (`Text.ParseNat`), BindInt (`Store.BindInt`): an `int4` parameter is modelled as a string of decimal digits with no upper bound. Postgres also accepts a leading sign and surrounding blanks, and rejects values above 2147483647. So "CATEGORY--1" is a database error in the model but a not-found in the source, " 7" is an error in the model but row 7 in the source, and "CATEGORY-9999999999" decodes in the model but is an out-of-range error in the source.
- AfterId (`Paging.AfterId`): the cursor text is read with `ParseNat`, so the same `int4` gap applies. A cursor of "-1" lists from the first row in the source and is a database error in the model; a cursor above 2147483647 is an error in the source and a bound in the model.
- LexLe (`Text.LexLe`), RootLe (`Categories.RootLe`), NullsLastLe (`Composite.NullsLastLe`): `ORDER BY name` is modelled as code-point order of the characters. The database orders text by its collation (for example, case and accents may be weighed differently), which is not modelled.
- NullsLastTotal (`Composite.NullsLastTotal`), `Templates.NameLeTotal`, `Trainings.NameLeTotal`: these prove the code-point order total. Under the database's collation the order is also total, but the model does not state which names tie.
- SortedRoots (`Categories.SortedRoots`), ListingOrdered (`Categories.ListingOrdered`), TemplateSets (`Templates.TemplateSets`), TrainingSets (`Trainings.TrainingSets`): rows equal on every `ORDER BY` key keep their table order in the model (the sort is stable). SQL leaves such ties in an unspecified order, so the model states one of the answers the database may give, not every one.
- WriteChildren (`Composite.WriteChildren`), InsertTemplate (`Templates.InsertTemplate`), CreateTemplate (`Templates.CreateTemplate`), UpdateTemplate (`Templates.UpdateTemplate`), InsertTraining (`Trainings.InsertTraining`), CreateTraining (`Trainings.CreateTraining`): foreign-key and NOT NULL constraints are not modelled. An exercise id, variable id, training target or parent link that names no row, and a NULL `exercise_id`, make the source's INSERT fail and roll back; in the model those inserts succeed.
- ReplaceChildren (`Composite.ReplaceChildren`): the source deletes only the `template_exercises` rows (src/templates/templates.resolvers.ts:282-285). The model also deletes the set-variable rows under them, which assumes an `ON DELETE CASCADE` from the set-variable table to the link table; the schema is not part of this model.
- InsertTraining (`Trainings.InsertTraining`), CreateTraining (`Trainings.CreateTraining`): the photo row is inserted through `pool`, outside the transaction (src/trainings/trainings.resolvers.ts:175-182). The model appends it in the same step and assumes that insert never fails.
- `Paging.SearchPattern`, `PtUsers.UserSearch`: trimming uses ASCII whitespace only, not every Unicode space `trim()` removes.
- `PtUsers.SetPassword`: the length is counted in characters, not in UTF-16 code units; the hash is a parameter, not bcrypt.
- `PtUsers.AddUser`, `PtUsers.ResendRegistration`: the token is a parameter, not 32 random bytes. "Seven days" is a fixed number of milliseconds, so daylight-saving shifts are ignored.
- `PtUsers.ListAdminUsers`: the status column is plain text. The filter compares it with the lower-cased argument, and a status the database does not hold matches no row.
- `Aluno.UpdateUserDetails`: height and weight are whole numbers, and the SET list is applied to the row in memory rather than as text.
- Transactions are single steps, with no isolation or concurrency. A rollback restores the rows but not the serial counters, as in Postgres.
- `addCategory` does not check that the parent exists or belongs to the caller, and `addExercise` does not check that the category is live. The model keeps both gaps.
- Only one level of subcategories is considered by the listing, the exercise filter and the delete, as in the source.
- `PtUsers.TokenSingleUse`, `PtUsers.ResendRevokesOldToken`: these assume at most one user holds a token, which random 32-byte tokens make overwhelmingly likely but do not guarantee.
- Pool configuration and the `roles` passthrough query are not modelled.

## Findings

| source | as written | input that shows it | evidently intended | confidence | as-written member | corrected member |
|---|---|---|---|---|---|---|
| src/pt_user/pt_user.resolvers.ts:194 | `editUser` passes the new name to the e-mail duplication check | owner 1 has live users 1 (`a@x`) and 2 (`b@x`); `editUser(USER-2, name "B", email "a@x")` passes and leaves two live users with `a@x` | the new e-mail is checked, so e-mails stay unique per owner | high, not executed | PtUsers.EditAsWrittenAdmitsDuplicate | PtUsers.EditUser |
| src/aluno/aluno.resolvers.ts:50-58 | the insert always names `$2`..`$5`, but only the supplied fields are pushed to `values` | `updateUserDetails(birthday: "2000-01-01")` binds two values to a statement that needs five, so the upsert fails | a partial update inserts or patches just the supplied fields | high, not executed | Aluno.AsWrittenNeedsAllFour | Aluno.UpdateUserDetails |
