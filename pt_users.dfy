/**
 * The managed-user resolvers (src/pt_user/pt_user.resolvers.ts): the
 * `adminUser` lookup, the `adminUsers` keyset listing, and the lifecycle of
 * a user a trainer manages. A user is invited as `pending` with a
 * registration token, becomes `active` by setting a password with that
 * token, can be deactivated and activated again, and is archived by
 * deletion.
 */
module PtUsers {
  import opened Wrappers
  import opened Text
  import opened Ids
  import opened Store
  import opened Guards
  import opened Paging
  import opened Uniqueness
  import opened PtUserUtils
  import opened AlunoUtils

  /** What Postgres answers to a negative `LIMIT`. */
  const NegativeLimit := "LIMIT must not be negative"
  const ShortPassword := "A palavra-passe deve ter pelo menos 6 caracteres"
  const InvalidLink := "Link de registo inválido ou expirado. Por favor contacte um administrador."
  const UserMissing := "User não encontrado"
  const UserDeactivated := "User está desativado"

  /** Time is counted in milliseconds, as JavaScript's `Date` counts it. */
  const Week: nat := 7 * 24 * 60 * 60 * 1000

  /** `tokenExpiration.setDate(tokenExpiration.getDate() + 7)`. */
  function TokenExpiry(now: Time): (t: Time)
    ensures t > now
  {
    now + Week
  }

  // ---------------------------------------------------------------------
  // `adminUser`

  /** A user of the caller's that is not archived (`created_by = $1 AND status != 'archived'`). */
  predicate VisibleTo(v: Row<UserData>, userId: nat)
  {
    v.data.createdBy == Some(userId) && v.data.status != Archived
  }

  /** The caller's visible user with this id, when there is one. */
  function VisibleUser(rows: seq<Row<UserData>>, userId: nat, n: nat): (r: Option<Row<UserData>>)
    ensures r.Some? <==> exists i :: 0 <= i < |rows| && rows[i].id == n && VisibleTo(rows[i], userId)
    ensures r.Some? ==> r.value in rows && r.value.id == n && VisibleTo(r.value, userId)
  {
    var found := Select(rows, (v: Row<UserData>) => v.id == n && VisibleTo(v, userId));
    if |found| == 0 then None
    else
      assert found[0] in rows;
      Some(found[0])
  }

  /**
   * `adminUser(id)`: the ownership guard on the decoded id, then the same
   * row again among the caller's users that are not archived. There is no
   * `requireAuth`: without a caller the resolver fails on `context.user.id`.
   */
  function AdminUserById(rows: seq<Row<UserData>>, ctx: Context, id: string): (r: Result<UserNode>)
    ensures ctx.user.None? ==> r == Err(NoUserCrash)
    ensures r.Ok? <==>
      ctx.user.Some? && ParseRowId(AdminUser, id).Some? && VisibleUser(rows, ctx.user.value, ParseRowId(AdminUser, id).value).Some?
    ensures r.Ok? ==> r.value == MapUserRow(VisibleUser(rows, ctx.user.value, ParseRowId(AdminUser, id).value).value)
    ensures r.Err? ==> r.msg in {NoUserCrash, InvalidInteger, UserNotFound}
  {
    if ctx.user.None? then Err(NoUserCrash)
    else
      var u := ctx.user.value;
      match OwnedTarget(rows, UserOwner, DecodeId(AdminUser, Some(id)), u, ErrorMessage)
      case Err(m) => Err(m)
      case Ok(n) =>
        match VisibleUser(rows, u, n)
        case None => Err(ErrorMessage(NotExist))
        case Some(v) => Ok(MapUserRow(v))
  }

  // ---------------------------------------------------------------------
  // `adminUsers`

  /** The `filter` argument of `adminUsers`. */
  datatype UserFilter = UserFilter(status: Option<string>, search: Option<string>)

  /**
   * `filter.search && filter.search.trim()` decides whether to search, but
   * the pattern is the term as given, untrimmed.
   */
  function UserSearch(term: Option<string>): (r: Option<string>)
    ensures r.Some? <==> term.Some? && Trim(term.value) != ""
    ensures r.Some? ==> r == term
  {
    if term.Some? && Trim(term.value) != "" then term else None
  }

  /** The `WHERE` of `adminUsers`, as a filter over rows. */
  function Listed(userId: nat, filter: UserFilter): Row<UserData> -> bool
  {
    (v: Row<UserData>) => IsListed(v, userId, filter)
  }

  /**
   * A user `adminUsers` lists: one of the caller's that is not archived, in
   * the lower-cased status when one is given, whose name or e-mail contains
   * the search term when one is given.
   */
  predicate IsListed(v: Row<UserData>, userId: nat, filter: UserFilter)
  {
    VisibleTo(v, userId)
      && (filter.status.None? || filter.status.value == "" || StatusText(v.data.status) == ToLower(filter.status.value))
      && (UserSearch(filter.search).None?
          || Contains(v.data.name, UserSearch(filter.search).value)
          || Contains(v.data.email, UserSearch(filter.search).value))
  }

  /**
   * `adminUsers(first, after, filter)`: a keyset page over the listed users
   * beyond the cursor. There is no guard on `first`: `-1` asks for
   * `LIMIT 0` and yields an empty page that claims a next page, and anything
   * lower is refused by the database.
   */
  method ListAdminUsers(db: Database, ctx: Context, first: Option<int>, after: Option<Cursor>, filter: UserFilter)
    returns (r: Result<Connection<UserNode>>)
    ensures ctx.user.None? ==> r == Err(Unauthorized)
    ensures ctx.user.Some? && AfterId(after).Err? ==> r == Err(InvalidInteger)
    ensures ctx.user.Some? && AfterId(after).Ok? && PageSize(first) < -1 ==> r == Err(NegativeLimit)
    ensures r.Ok? <==> ctx.user.Some? && AfterId(after).Ok? && PageSize(first) >= -1
    ensures r.Ok? ==>
      IsKeysetPage(r.value, AboveCursor(db.users.rows, Listed(ctx.user.value, filter), AfterId(after).value),
                   PageSize(first), MapUserRow)
    ensures r.Ok? && PageSize(first) == -1 ==> r.value.edges == [] && r.value.pageInfo.hasNextPage
  {
    var auth := RequireAuth(ctx);
    if auth.Err? {
      return Err(auth.msg);
    }
    var limit := PageSize(first);
    var afterId := AfterId(after);
    if afterId.Err? {
      return Err(afterId.msg);
    }
    if limit + 1 < 0 {
      return Err(NegativeLimit);
    }
    var matching := AboveCursor(db.users.rows, Listed(auth.value, filter), afterId.value);
    var page := KeysetPage(matching, limit, MapUserRow);
    return Ok(page);
  }

  /**
   * Every user on a page is one of the caller's, not archived, in the
   * filtered status and matching the search, beyond the cursor, and listed
   * under its own cursor.
   */
  lemma ListedUsersVisible(c: Connection<UserNode>, rows: seq<Row<UserData>>, userId: nat, filter: UserFilter,
                           after: Option<nat>, first: int)
    requires IdsAscending(rows)
    requires IsKeysetPage(c, AboveCursor(rows, Listed(userId, filter), after), first, MapUserRow)
    ensures forall i :: 0 <= i < |c.edges| ==>
      exists v :: v in rows && VisibleTo(v, userId) && IsListed(v, userId, filter) && (after.None? || v.id > after.value)
        && c.edges[i] == Edge(CursorOf(v.id), MapUserRow(v))
  {
    PageFromRows(c, rows, Listed(userId, filter), after, first, MapUserRow);
  }

  // ---------------------------------------------------------------------
  // The lifecycle transitions, as the `SET` lists of the statements

  /** The `SET` of `setPassword`: the hash stored, `active`, the token and its expiry cleared. */
  function Registered(hashed: string, now: Time): UserData -> UserData
  {
    (d: UserData) => d.(password := Some(hashed), status := Active, passwordSetAt := Some(now),
                        token := None, tokenExpiresAt := None, updatedAt := now)
  }

  /** The `SET` of `resendRegistrationEmail`: a new token and expiry; the status stays. */
  function Reissued(token: string, now: Time): UserData -> UserData
  {
    (d: UserData) => d.(token := Some(token), tokenExpiresAt := Some(TokenExpiry(now)), updatedAt := now)
  }

  /** The `SET` of `deleteUser`. */
  function Archive(now: Time): UserData -> UserData
  {
    (d: UserData) => d.(archivedAt := Some(now), updatedAt := now, status := Archived)
  }

  /** The `SET` of `activateUser`. */
  function Reactivated(now: Time): UserData -> UserData
  {
    (d: UserData) => d.(deactivatedAt := None, updatedAt := now, status := Active)
  }

  /** The `SET` of `deactivateUser`. */
  function Deactivate(now: Time): UserData -> UserData
  {
    (d: UserData) => d.(deactivatedAt := Some(now), updatedAt := now, status := Deactivated)
  }

  /** The mutations that move a user through its lifecycle. */
  datatype Op = SetPasswordOp | ResendOp | ActivateOp | DeactivateOp | DeleteOp

  /**
   * The lifecycle as a state machine: the status a mutation leads to from
   * each status, `None` where the mutation refuses. Only `setPassword` and
   * `resendRegistrationEmail` look at the status; the other three apply to
   * a user in any status, an archived one included.
   */
  function NextStatus(s: Status, op: Op): Option<Status>
  {
    match op
    case SetPasswordOp => if s == Pending then Some(Active) else None
    case ResendOp => if s == Pending then Some(Pending) else None
    case ActivateOp => Some(Active)
    case DeactivateOp => Some(Deactivated)
    case DeleteOp => Some(Archived)
  }

  /** The transition each mutation applies to the user's row. */
  function Transition(op: Op, hashed: string, token: string, now: Time): UserData -> UserData
  {
    match op
    case SetPasswordOp => Registered(hashed, now)
    case ResendOp => Reissued(token, now)
    case ActivateOp => Reactivated(now)
    case DeactivateOp => Deactivate(now)
    case DeleteOp => Archive(now)
  }

  /**
   * Every transition, applied where the state machine allows it, leads to
   * the status the machine names; and none of them changes who created the
   * user, the e-mail, the name or the role.
   */
  lemma TransitionsFollowLifecycle(d: UserData, op: Op, hashed: string, token: string, now: Time)
    requires NextStatus(d.status, op).Some?
    ensures Transition(op, hashed, token, now)(d).status == NextStatus(d.status, op).value
    ensures var e := Transition(op, hashed, token, now)(d);
      e.createdBy == d.createdBy && e.email == d.email && e.name == d.name && e.roleId == d.roleId
      && e.createdAt == d.createdAt
  {
    match op
    case SetPasswordOp =>
    case ResendOp =>
    case ActivateOp =>
    case DeactivateOp =>
    case DeleteOp =>
  }

  /** No transition but deletion moves a user in or out of the e-mail duplication scope. */
  lemma TransitionsKeepEmailScope(d: UserData, op: Op, hashed: string, token: string, now: Time)
    requires op != DeleteOp
    ensures UserKey(Transition(op, hashed, token, now)(d)) == UserKey(d)
    ensures UserKey(Transition(DeleteOp, hashed, token, now)(d)).None?
  {
    match op
    case SetPasswordOp =>
    case ResendOp =>
    case ActivateOp =>
    case DeactivateOp =>
  }

  /**
   * The `UPDATE users SET … WHERE id = $n` of a lifecycle transition that
   * leaves the e-mail duplication scope as it is.
   */
  method Transit(users: Table<UserData>, n: nat, g: UserData -> UserData)
    requires users.Valid()
    requires forall d :: UserKey(g(d)) == UserKey(d)
    modifies users
    ensures users.Valid()
    ensures users.rows == Updated(old(users.rows), IdIs(n), g)
    ensures UniqueBy(old(users.rows), UserKey) ==> UniqueBy(users.rows, UserKey)
  {
    ghost var before := users.rows;
    users.UpdateWhere(IdIs(n), g);
    if UniqueBy(before, UserKey) {
      KeyPreservingKeepsUnique(before, UserKey, IdIs(n), g);
    }
  }

  // ---------------------------------------------------------------------
  // `addUser`

  /** The checks `addUser` makes before it writes: the caller, `!name || !email`, the e-mail check. */
  function AddCheck(rows: seq<Row<UserData>>, ctx: Context, name: Option<string>, email: Option<string>): (r: Result<nat>)
    ensures ctx.user.None? ==> r == Err(Unauthorized)
    ensures ctx.user.Some? && (Falsy(name) || Falsy(email)) ==> r == Err(InvalidRequest)
    ensures r.Ok? <==>
      ctx.user.Some? && !Falsy(name) && !Falsy(email) && !Clashes(rows, UserKey, (ctx.user.value, email.value), None)
    ensures r.Ok? ==> Some(r.value) == ctx.user
    ensures r.Err? ==> r.msg in {Unauthorized, InvalidRequest, EmailExists}
  {
    if ctx.user.None? then Err(Unauthorized)
    else if Falsy(name) || Falsy(email) then Err(InvalidRequest)
    else
      match CheckDuplication(rows, email.value, ctx.user.value, None)
      case Err(m) => Err(m)
      case Ok(_) => Ok(ctx.user.value)
  }

  /** The row `addUser` inserts: role 2, `pending`, the token valid for seven days. */
  function Invited(email: string, name: string, createdBy: nat, token: string, now: Time): UserData
  {
    UserData(email, name, 2, Some(createdBy), Pending, Some(token), Some(TokenExpiry(now)), None, None, None, None, now, now)
  }

  /**
   * `addUser(user)`: after the checks, a new pending user created by the
   * caller, holding the registration token; the caller's live e-mails stay
   * unique. The registration e-mail is not part of this model.
   */
  method AddUser(db: Database, ctx: Context, name: Option<string>, email: Option<string>, token: string, now: Time)
    returns (r: Result<UserNode>)
    requires db.UsersValid()
    modifies db.users
    ensures db.UsersValid()
    ensures var check := AddCheck(old(db.users.rows), ctx, name, email);
      (check.Err? ==> r == Err(check.msg) && db.users.rows == old(db.users.rows))
      && (check.Ok? ==>
            var v := Row(old(db.users.nextId), Invited(email.value, name.value, check.value, token, now));
            db.users.rows == old(db.users.rows) + [v] && r == Ok(MapUserRow(v)))
    ensures UniqueBy(old(db.users.rows), UserKey) ==> UniqueBy(db.users.rows, UserKey)
  {
    var check := AddCheck(db.users.rows, ctx, name, email);
    if check.Err? {
      return Err(check.msg);
    }
    ghost var before := db.users.rows;
    var d := Invited(email.value, name.value, check.value, token, now);
    var id := db.users.Insert(d);
    if UniqueBy(before, UserKey) {
      AppendKeepsUnique(before, UserKey, Row(id, d));
    }
    return Ok(MapUserRow(Row(id, d)));
  }

  // ---------------------------------------------------------------------
  // `setPassword`

  /** `registration_token = $1 AND registration_token_expires_at > NOW() AND status = 'pending'`. */
  function Redeemable(token: string, now: Time): Row<UserData> -> bool
  {
    (v: Row<UserData>) =>
      v.data.token == Some(token) && v.data.tokenExpiresAt.Some? && v.data.tokenExpiresAt.value > now
      && v.data.status == Pending
  }

  /** The user a registration token names: the first row the lookup returns. */
  function RegistrationTarget(rows: seq<Row<UserData>>, token: string, now: Time): (r: Option<Row<UserData>>)
    ensures r.Some? <==> exists i :: 0 <= i < |rows| && Redeemable(token, now)(rows[i])
    ensures r.Some? ==> r.value in rows && Redeemable(token, now)(r.value)
  {
    var found := Select(rows, Redeemable(token, now));
    if |found| == 0 then None
    else
      assert found[0] in rows;
      Some(found[0])
  }

  /** At most one user holds a given token, as tokens are 32 random bytes. */
  predicate TokenHeldOnce(rows: seq<Row<UserData>>, token: string)
  {
    forall i, j ::
      (0 <= i < |rows| && 0 <= j < |rows| && rows[i].data.token == Some(token) && rows[j].data.token == Some(token))
      ==> i == j
  }

  /**
   * `setPassword(token, password)`: a password shorter than six characters
   * is refused before any lookup; a token that names no pending user with
   * an unexpired token is refused; otherwise that user gets the hash of the
   * password and becomes active, and the token is cleared. No caller is
   * needed. The hash function is a parameter.
   */
  method SetPassword(db: Database, token: string, password: Option<string>, hash: string -> string, now: Time)
    returns (r: Result<bool>)
    requires db.UsersValid()
    modifies db.users
    ensures db.UsersValid()
    ensures Falsy(password) || |password.value| < 6 ==> r == Err(ShortPassword) && db.users.rows == old(db.users.rows)
    ensures !Falsy(password) && |password.value| >= 6 ==>
      var target := RegistrationTarget(old(db.users.rows), token, now);
      (target.None? ==> r == Err(InvalidLink) && db.users.rows == old(db.users.rows))
      && (target.Some? ==>
            r == Ok(true) && target.value.data.status == Pending
            && db.users.rows == Updated(old(db.users.rows), IdIs(target.value.id), Registered(hash(password.value), now)))
    ensures UniqueBy(old(db.users.rows), UserKey) ==> UniqueBy(db.users.rows, UserKey)
  {
    if password.None? || password.value == "" || |password.value| < 6 {
      return Err(ShortPassword);
    }
    var target := RegistrationTarget(db.users.rows, token, now);
    if target.None? {
      return Err(InvalidLink);
    }
    var user := target.value;
    var hashed := hash(password.value);
    Transit(db.users, user.id, Registered(hashed, now));
    return Ok(true);
  }

  /** A registration token works once: after `setPassword` it names no user. */
  lemma TokenSingleUse(rows: seq<Row<UserData>>, token: string, hashed: string, now: Time, later: Time)
    requires IdsAscending(rows) && TokenHeldOnce(rows, token)
    requires RegistrationTarget(rows, token, now).Some?
    ensures RegistrationTarget(Updated(rows, IdIs(RegistrationTarget(rows, token, now).value.id), Registered(hashed, now)),
                               token, later).None?
  {
    var n := RegistrationTarget(rows, token, now).value.id;
    var after := Updated(rows, IdIs(n), Registered(hashed, now));
    var k :| 0 <= k < |rows| && rows[k] == RegistrationTarget(rows, token, now).value;
    forall i | 0 <= i < |after|
      ensures !Redeemable(token, later)(after[i])
    {
      if rows[i].id != n {
        assert i != k;
        assert rows[i].data.token != Some(token);
      }
    }
  }

  // ---------------------------------------------------------------------
  // `resendRegistrationEmail`

  /**
   * What `resendRegistrationEmail` answers before it writes: the pending
   * user with the decoded id, whoever created it. A deactivated one is
   * refused. `Ok(n)` is that user's id.
   */
  function ResendTarget(rows: seq<Row<UserData>>, ctx: Context, userId: string): (r: Result<nat>)
    requires IdsAscending(rows)
    ensures ctx.user.None? ==> r == Err(Unauthorized)
    ensures ctx.user.Some? && BindOptInt(DecodeId(AdminUser, Some(userId))).Err? ==> r == Err(InvalidInteger)
    ensures r.Ok? <==>
      ctx.user.Some? && ParseRowId(AdminUser, userId).Some?
      && exists i :: 0 <= i < |rows| && rows[i].id == ParseRowId(AdminUser, userId).value && rows[i].data.status == Pending
                     && rows[i].data.deactivatedAt.None?
    ensures r.Ok? ==> Some(r.value) == ParseRowId(AdminUser, userId)
    ensures r.Err? ==> r.msg in {Unauthorized, InvalidInteger, UserMissing, UserDeactivated}
  {
    if ctx.user.None? then Err(Unauthorized)
    else
      match BindOptInt(DecodeId(AdminUser, Some(userId)))
      case Err(m) => Err(m)
      case Ok(None) => Err(UserMissing)
      case Ok(Some(n)) =>
        var found := Select(rows, (v: Row<UserData>) => v.id == n && v.data.status == Pending);
        if |found| == 0 then
          assert forall i :: 0 <= i < |rows| && rows[i].id == n ==> rows[i].data.status != Pending;
          Err(UserMissing)
        else if found[0].data.deactivatedAt.Some? then
          assert found[0] in rows;
          assert forall i :: 0 <= i < |rows| && rows[i].id == n && rows[i].data.status == Pending ==> rows[i] == found[0];
          Err(UserDeactivated)
        else
          assert found[0] in rows;
          Ok(n)
  }

  /**
   * `resendRegistrationEmail(userId)`: after the checks, the user gets a new
   * token valid for seven days; the status stays `pending`. The e-mail is
   * not part of this model.
   */
  method ResendRegistration(db: Database, ctx: Context, userId: string, token: string, now: Time)
    returns (r: Result<bool>)
    requires db.UsersValid()
    modifies db.users
    ensures db.UsersValid()
    ensures var target := ResendTarget(old(db.users.rows), ctx, userId);
      (target.Err? ==> r == Err(target.msg) && db.users.rows == old(db.users.rows))
      && (target.Ok? ==> r == Ok(true) && db.users.rows == Updated(old(db.users.rows), IdIs(target.value), Reissued(token, now)))
    ensures UniqueBy(old(db.users.rows), UserKey) ==> UniqueBy(db.users.rows, UserKey)
  {
    var target := ResendTarget(db.users.rows, ctx, userId);
    if target.Err? {
      return Err(target.msg);
    }
    Transit(db.users, target.value, Reissued(token, now));
    return Ok(true);
  }

  /**
   * The token a resend issues lets the user register until it expires,
   * provided no other user holds it.
   */
  lemma ReissuedTokenRedeems(rows: seq<Row<UserData>>, n: nat, token: string, now: Time, later: Time)
    requires IdsAscending(rows)
    requires exists i :: 0 <= i < |rows| && rows[i].id == n && rows[i].data.status == Pending
    requires forall i :: 0 <= i < |rows| && rows[i].id != n ==> rows[i].data.token != Some(token)
    requires later < TokenExpiry(now)
    ensures RegistrationTarget(Updated(rows, IdIs(n), Reissued(token, now)), token, later).Some?
    ensures RegistrationTarget(Updated(rows, IdIs(n), Reissued(token, now)), token, later).value.id == n
  {
    var after := Updated(rows, IdIs(n), Reissued(token, now));
    var k :| 0 <= k < |rows| && rows[k].id == n && rows[k].data.status == Pending;
    assert Redeemable(token, later)(after[k]);
    var t := RegistrationTarget(after, token, later).value;
    var j :| 0 <= j < |after| && after[j] == t;
  }

  /** The token a resend replaces no longer names the user. */
  lemma ResendRevokesOldToken(rows: seq<Row<UserData>>, n: nat, old_token: string, token: string, now: Time, later: Time)
    requires IdsAscending(rows) && TokenHeldOnce(rows, old_token) && old_token != token
    requires exists i :: 0 <= i < |rows| && rows[i].id == n && rows[i].data.token == Some(old_token)
    ensures RegistrationTarget(Updated(rows, IdIs(n), Reissued(token, now)), old_token, later).None?
  {
    var after := Updated(rows, IdIs(n), Reissued(token, now));
    var k :| 0 <= k < |rows| && rows[k].id == n && rows[k].data.token == Some(old_token);
    forall i | 0 <= i < |after|
      ensures !Redeemable(old_token, later)(after[i])
    {
      if rows[i].id != n {
        assert i != k;
      }
    }
  }

  // ---------------------------------------------------------------------
  // `deleteUser`, `activateUser`, `deactivateUser`

  /** The guard the three status mutations share: the caller, then the decoded id among the caller's users. */
  function StatusTarget(rows: seq<Row<UserData>>, ctx: Context, id: string): (r: Result<nat>)
    ensures ctx.user.None? ==> r == Err(Unauthorized)
    ensures r.Ok? <==>
      ctx.user.Some? && OwnedTarget(rows, UserOwner, DecodeId(AdminUser, Some(id)), ctx.user.value, ErrorMessage).Ok?
    ensures r.Ok? ==> Some(r.value) == ParseRowId(AdminUser, id) && OwnedRowExists(rows, UserOwner, r.value, ctx.user.value)
    ensures r.Err? ==> r.msg in {Unauthorized, InvalidInteger, UserNotFound}
  {
    if ctx.user.None? then Err(Unauthorized)
    else OwnedTarget(rows, UserOwner, DecodeId(AdminUser, Some(id)), ctx.user.value, ErrorMessage)
  }

  /**
   * `deleteUser(id)`: archives the caller's user, whatever its status, and
   * answers with the id it was given.
   */
  method DeleteUser(db: Database, ctx: Context, id: string, now: Time) returns (r: Result<string>)
    requires db.UsersValid()
    modifies db.users
    ensures db.UsersValid()
    ensures var target := StatusTarget(old(db.users.rows), ctx, id);
      (target.Err? ==> r == Err(target.msg) && db.users.rows == old(db.users.rows))
      && (target.Ok? ==> r == Ok(id) && db.users.rows == Updated(old(db.users.rows), IdIs(target.value), Archive(now)))
    ensures UniqueBy(old(db.users.rows), UserKey) ==> UniqueBy(db.users.rows, UserKey)
  {
    var target := StatusTarget(db.users.rows, ctx, id);
    if target.Err? {
      return Err(target.msg);
    }
    ghost var before := db.users.rows;
    db.users.UpdateWhere(IdIs(target.value), Archive(now));
    if UniqueBy(before, UserKey) {
      ClearKeepsUnique(before, UserKey, IdIs(target.value), Archive(now));
    }
    return Ok(id);
  }

  /** After `deleteUser`, `adminUser` reports the user as missing. */
  lemma DeletedUserNotFound(rows: seq<Row<UserData>>, u: nat, id: string, n: nat, now: Time)
    requires StatusTarget(rows, Context(Some(u)), id) == Ok(n)
    ensures AdminUserById(Updated(rows, IdIs(n), Archive(now)), Context(Some(u)), id) == Err(UserNotFound)
  {
    var after := Updated(rows, IdIs(n), Archive(now));
    var k :| 0 <= k < |rows| && rows[k].id == n && UserOwner(rows[k].data) == Some(u);
    assert OwnedRowExists(after, UserOwner, n, u) by {
      assert after[k].id == n && UserOwner(after[k].data) == Some(u);
    }
    assert VisibleUser(after, u, n).None? by {
      forall i | 0 <= i < |after| && after[i].id == n
        ensures !VisibleTo(after[i], u)
      {
      }
    }
  }

  /**
   * The returned row of the status mutations' `UPDATE … RETURNING *` on a
   * user the guard found.
   */
  method UpdateUser(users: Table<UserData>, n: nat, userId: nat, g: UserData -> UserData) returns (v: Row<UserData>)
    requires users.Valid()
    requires OwnedRowExists(users.rows, UserOwner, n, userId)
    modifies users
    ensures users.Valid()
    ensures users.rows == Updated(old(users.rows), IdIs(n), g)
    ensures v in users.rows && v.id == n
    ensures exists w :: w in old(users.rows) && w.id == n && v.data == g(w.data)
  {
    ghost var w := UpdatedReadBack(users.rows, n, g);
    users.UpdateWhere(IdIs(n), g);
    var returned := Select(users.rows, IdIs(n));
    v := returned[0];
  }

  /**
   * `activateUser(id)`: the caller's user, in whatever status, becomes
   * active with its deactivation cleared, and comes back mapped. An
   * archived user comes back to the listings this way, its archive time
   * still set.
   */
  method ActivateUser(db: Database, ctx: Context, id: string, now: Time) returns (r: Result<UserNode>)
    requires db.UsersValid()
    modifies db.users
    ensures db.UsersValid()
    ensures var target := StatusTarget(old(db.users.rows), ctx, id);
      (target.Err? ==> r == Err(target.msg) && db.users.rows == old(db.users.rows))
      && (target.Ok? ==>
            db.users.rows == Updated(old(db.users.rows), IdIs(target.value), Reactivated(now))
            && r.Ok? && exists v :: v in db.users.rows && v.id == target.value && v.data.status == Active
                                    && v.data.deactivatedAt.None? && r.value == MapUserRow(v))
    ensures UniqueBy(old(db.users.rows), UserKey) ==> UniqueBy(db.users.rows, UserKey)
  {
    var target := StatusTarget(db.users.rows, ctx, id);
    if target.Err? {
      return Err(target.msg);
    }
    ghost var before := db.users.rows;
    var v := UpdateUser(db.users, target.value, ctx.user.value, Reactivated(now));
    if UniqueBy(before, UserKey) {
      KeyPreservingKeepsUnique(before, UserKey, IdIs(target.value), Reactivated(now));
    }
    return Ok(MapUserRow(v));
  }

  /**
   * `deactivateUser(id)`: the caller's user, in whatever status, becomes
   * deactivated from now, and comes back mapped.
   */
  method DeactivateUser(db: Database, ctx: Context, id: string, now: Time) returns (r: Result<UserNode>)
    requires db.UsersValid()
    modifies db.users
    ensures db.UsersValid()
    ensures var target := StatusTarget(old(db.users.rows), ctx, id);
      (target.Err? ==> r == Err(target.msg) && db.users.rows == old(db.users.rows))
      && (target.Ok? ==>
            db.users.rows == Updated(old(db.users.rows), IdIs(target.value), Deactivate(now))
            && r.Ok? && exists v :: v in db.users.rows && v.id == target.value && v.data.status == Deactivated
                                    && v.data.deactivatedAt == Some(now) && r.value == MapUserRow(v))
    ensures UniqueBy(old(db.users.rows), UserKey) ==> UniqueBy(db.users.rows, UserKey)
  {
    var target := StatusTarget(db.users.rows, ctx, id);
    if target.Err? {
      return Err(target.msg);
    }
    ghost var before := db.users.rows;
    var v := UpdateUser(db.users, target.value, ctx.user.value, Deactivate(now));
    if UniqueBy(before, UserKey) {
      KeyPreservingKeepsUnique(before, UserKey, IdIs(target.value), Deactivate(now));
    }
    return Ok(MapUserRow(v));
  }

  /** Activating a deleted user lists it again, while it stays out of the e-mail duplication scope. */
  lemma ActivateRevivesArchived(d: UserData, now: Time, later: Time, userId: nat)
    requires d.createdBy == Some(userId)
    ensures var e := Reactivated(later)(Archive(now)(d));
      e.status == Active && e.archivedAt == Some(now) && UserKey(e).None?
  {
  }

  // ---------------------------------------------------------------------
  // `editUser`

  /** The `SET` of `editUser`. */
  function Renamed(name: string, email: string, now: Time): UserData -> UserData
  {
    (d: UserData) => d.(name := name, email := email, updatedAt := now)
  }

  /**
   * The checks `editUser` makes before it writes, as written: the caller,
   * `!name || !id || !email`, the ownership guard, then the e-mail
   * duplication check, given the new NAME.
   */
  function EditCheckAsWritten(rows: seq<Row<UserData>>, ctx: Context, id: Option<string>, name: Option<string>,
                              email: Option<string>): (r: Result<nat>)
    ensures ctx.user.None? ==> r == Err(Unauthorized)
    ensures ctx.user.Some? && (Falsy(name) || Falsy(id) || Falsy(email)) ==> r == Err(InvalidRequest)
    ensures r.Ok? ==>
      ctx.user.Some? && !Falsy(name) && !Falsy(email)
      && OwnedRowExists(rows, UserOwner, r.value, ctx.user.value)
      && !Clashes(rows, UserKey, (ctx.user.value, name.value), Some(r.value))
  {
    if ctx.user.None? then Err(Unauthorized)
    else if Falsy(name) || Falsy(id) || Falsy(email) then Err(InvalidRequest)
    else
      match OwnedTarget(rows, UserOwner, DecodeId(AdminUser, id), ctx.user.value, ErrorMessage)
      case Err(m) => Err(m)
      case Ok(n) =>
        match CheckDuplication(rows, name.value, ctx.user.value, Some(n))
        case Err(m) => Err(m)
        case Ok(_) => Ok(n)
  }

  /** Two users of owner 1, with e-mails `a@x` and `b@x`. */
  function TwoUsers(): seq<Row<UserData>>
  {
    [Row(1, UserData("a@x", "A", 2, Some(1), Active, None, None, None, None, None, None, 0, 0)),
     Row(2, UserData("b@x", "B", 2, Some(1), Active, None, None, None, None, None, None, 0, 0))]
  }

  /**
   * As written, `editUser` lets a user take another live user's e-mail:
   * editing user 2 to e-mail `a@x` under its own name passes the check, as
   * no user has the e-mail `B`, and leaves two live users of owner 1 with
   * the same e-mail.
   */
  lemma EditAsWrittenAdmitsDuplicate()
    ensures UniqueBy(TwoUsers(), UserKey)
    ensures EditCheckAsWritten(TwoUsers(), Context(Some(1)), Some("USER-2"), Some("B"), Some("a@x")) == Ok(2)
    ensures !UniqueBy(Updated(TwoUsers(), IdIs(2), Renamed("B", "a@x", 5)), UserKey)
  {
    TwoUsersUnique();
    SecondUserOwned();
    NoUserHasEmailB();
    EditCheckAsWrittenPasses(TwoUsers(), 1, "USER-2", "B", "a@x", 2);
    RenamedTwoUsersClash();
  }

  /** The as-written check passes whenever the guard does and no other live user has the new name as e-mail. */
  lemma EditCheckAsWrittenPasses(rows: seq<Row<UserData>>, u: nat, id: string, name: string, email: string, n: nat)
    requires id != "" && name != "" && email != ""
    requires OwnedTarget(rows, UserOwner, DecodeId(AdminUser, Some(id)), u, ErrorMessage) == Ok(n)
    requires !Clashes(rows, UserKey, (u, name), Some(n))
    ensures EditCheckAsWritten(rows, Context(Some(u)), Some(id), Some(name), Some(email)) == Ok(n)
  {
  }

  lemma TwoUsersUnique()
    ensures UniqueBy(TwoUsers(), UserKey)
  {
    assert UserKey(TwoUsers()[0].data) == Some((1, "a@x"));
    assert UserKey(TwoUsers()[1].data) == Some((1, "b@x"));
  }

  lemma RenamedTwoUsersClash()
    ensures !UniqueBy(Updated(TwoUsers(), IdIs(2), Renamed("B", "a@x", 5)), UserKey)
  {
    var after := Updated(TwoUsers(), IdIs(2), Renamed("B", "a@x", 5));
    assert UserKey(after[0].data) == UserKey(after[1].data) == Some((1, "a@x"));
  }

  lemma SecondUserOwned()
    ensures OwnedTarget(TwoUsers(), UserOwner, DecodeId(AdminUser, Some("USER-2")), 1, ErrorMessage) == Ok(2)
  {
    DecodeEncode(AdminUser, "2");
    assert EncodeId(AdminUser, "2") == "USER-2";
    assert ParseNat("2") == Some(2);
    assert TwoUsers()[1].id == 2 && UserOwner(TwoUsers()[1].data) == Some(1);
  }

  lemma NoUserHasEmailB()
    ensures !Clashes(TwoUsers(), UserKey, (1, "B"), Some(2))
  {
    var rows := TwoUsers();
    forall i | 0 <= i < |rows|
      ensures UserKey(rows[i].data) != Some((1, "B"))
    {
      assert rows[i].data.email != "B";
    }
  }

  /**
   * The checks `editUser` evidently means to make: the same, with the new
   * e-mail given to the e-mail duplication check.
   */
  function EditCheck(rows: seq<Row<UserData>>, ctx: Context, id: Option<string>, name: Option<string>,
                     email: Option<string>): (r: Result<nat>)
    ensures ctx.user.None? ==> r == Err(Unauthorized)
    ensures ctx.user.Some? && (Falsy(name) || Falsy(id) || Falsy(email)) ==> r == Err(InvalidRequest)
    ensures r.Ok? <==>
      ctx.user.Some? && !Falsy(name) && !Falsy(id) && !Falsy(email)
      && OwnedTarget(rows, UserOwner, DecodeId(AdminUser, id), ctx.user.value, ErrorMessage).Ok?
      && !Clashes(rows, UserKey, (ctx.user.value, email.value),
                  Some(OwnedTarget(rows, UserOwner, DecodeId(AdminUser, id), ctx.user.value, ErrorMessage).value))
    ensures r.Ok? ==>
      OwnedRowExists(rows, UserOwner, r.value, ctx.user.value) && ParseNat(DecodeId(AdminUser, id).value) == Some(r.value)
    ensures r.Err? ==> r.msg in {Unauthorized, InvalidRequest, InvalidInteger, UserNotFound, EmailExists}
  {
    if ctx.user.None? then Err(Unauthorized)
    else if Falsy(name) || Falsy(id) || Falsy(email) then Err(InvalidRequest)
    else
      match OwnedTarget(rows, UserOwner, DecodeId(AdminUser, id), ctx.user.value, ErrorMessage)
      case Err(m) => Err(m)
      case Ok(n) =>
        match CheckDuplication(rows, email.value, ctx.user.value, Some(n))
        case Err(m) => Err(m)
        case Ok(_) => Ok(n)
  }

  /** An edit that passed the e-mail check with the user itself excluded keeps live e-mails unique. */
  lemma RenameKeepsUnique(rows: seq<Row<UserData>>, n: nat, userId: nat, name: string, email: string, now: Time)
    requires UniqueBy(rows, UserKey) && IdsAscending(rows)
    requires OwnedRowExists(rows, UserOwner, n, userId)
    requires !Clashes(rows, UserKey, (userId, email), Some(n))
    ensures UniqueBy(Updated(rows, IdIs(n), Renamed(name, email, now)), UserKey)
  {
    var g := Renamed(name, email, now);
    forall i | 0 <= i < |rows| && IdIs(n)(rows[i]) && UserKey(g(rows[i].data)).Some?
      ensures !Clashes(rows, UserKey, UserKey(g(rows[i].data)).value, Some(n))
    {
      var k :| 0 <= k < |rows| && rows[k].id == n && UserOwner(rows[k].data) == Some(userId);
      assert UserKey(g(rows[i].data)).value == (userId, email);
    }
    UpdateOneKeepsUnique(rows, UserKey, IdIs(n), n, g);
  }

  /**
   * `editUser(user)`, with the e-mail check corrected: after the checks,
   * only the name, e-mail and update time of the one user change, it comes
   * back mapped, and the caller's live e-mails stay unique.
   */
  method EditUser(db: Database, ctx: Context, id: Option<string>, name: Option<string>, email: Option<string>, now: Time)
    returns (r: Result<UserNode>)
    requires db.UsersValid()
    modifies db.users
    ensures db.UsersValid()
    ensures var target := EditCheck(old(db.users.rows), ctx, id, name, email);
      (target.Err? ==> r == Err(target.msg) && db.users.rows == old(db.users.rows))
      && (target.Ok? ==>
            db.users.rows == Updated(old(db.users.rows), IdIs(target.value), Renamed(name.value, email.value, now))
            && r.Ok? && exists v :: v in db.users.rows && v.id == target.value && v.data.name == name.value
                                    && v.data.email == email.value && r.value == MapUserRow(v))
    ensures UniqueBy(old(db.users.rows), UserKey) ==> UniqueBy(db.users.rows, UserKey)
  {
    var target := EditCheck(db.users.rows, ctx, id, name, email);
    if target.Err? {
      return Err(target.msg);
    }
    ghost var before := db.users.rows;
    if UniqueBy(before, UserKey) {
      RenameKeepsUnique(before, target.value, ctx.user.value, name.value, email.value, now);
    }
    var v := UpdateUser(db.users, target.value, ctx.user.value, Renamed(name.value, email.value, now));
    return Ok(MapUserRow(v));
  }

  // ---------------------------------------------------------------------
  // `AdminUser.photo` and `AdminUserWithProfile.userDetails`

  /** The photo columns of a user's details row. */
  datatype Photo = Photo(url: Option<string>, key: Option<string>)

  /**
   * `AdminUser.photo`: the photo columns of the details row of the user the
   * parent's id names, or null when it has none.
   */
  function UserPhoto(details: seq<Row<DetailsData>>, parentId: string): (r: Result<Option<Photo>>)
    ensures r.Err? <==> BindOptInt(DecodeId(AdminUser, Some(parentId))).Err?
    ensures r.Ok? && r.value.Some? ==>
      exists d :: d in details && Some(d.data.userId) == ParseRowId(AdminUser, parentId)
                  && r.value.value == Photo(d.data.photoUrl, d.data.photoKey)
  {
    match BindOptInt(DecodeId(AdminUser, Some(parentId)))
    case Err(m) => Err(m)
    case Ok(None) => Ok(None)
    case Ok(Some(n)) =>
      match DetailsOf(details, n)
      case None => Ok(None)
      case Some(d) => Ok(Some(Photo(d.data.photoUrl, d.data.photoKey)))
  }

  /**
   * `AdminUserWithProfile.userDetails`: the mapped details row of the user
   * the parent's id names, or null when it has none.
   */
  function ProfileDetails(details: seq<Row<DetailsData>>, parentId: string): (r: Result<Option<DetailsNode>>)
    ensures r.Err? <==> BindOptInt(DecodeId(AdminUser, Some(parentId))).Err?
    ensures r.Ok? && r.value.Some? ==>
      exists d :: d in details && Some(d.data.userId) == ParseRowId(AdminUser, parentId) && r.value.value == MapAlunoRow(d)
  {
    match BindOptInt(DecodeId(AdminUser, Some(parentId)))
    case Err(m) => Err(m)
    case Ok(None) => Ok(None)
    case Ok(Some(n)) =>
      match DetailsOf(details, n)
      case None => Ok(None)
      case Some(d) => Ok(Some(MapAlunoRow(d)))
  }

  /**
   * On a user the API returned, both field resolvers find that user's own
   * details: the parent id decodes back to the row id.
   */
  lemma ProfileOfMappedUser(details: seq<Row<DetailsData>>, user: Row<UserData>)
    ensures ProfileDetails(details, MapUserRow(user).id).Ok?
    ensures ProfileDetails(details, MapUserRow(user).id).value.Some?
            <==> exists i :: 0 <= i < |details| && details[i].data.userId == user.id
    ensures UserPhoto(details, MapUserRow(user).id).Ok?
    ensures UserPhoto(details, MapUserRow(user).id).value.Some?
            <==> exists i :: 0 <= i < |details| && details[i].data.userId == user.id
  {
    var s := MapUserRow(user).id;
    DecodeEncode(AdminUser, NatToString(user.id));
    ParseNatToString(user.id);
    assert DecodeId(AdminUser, Some(s)) == Some(NatToString(user.id));
    assert BindOptInt(DecodeId(AdminUser, Some(s))) == Ok(Some(user.id));
    var found := DetailsOf(details, user.id);
    assert ProfileDetails(details, s) == if found.Some? then Ok(Some(MapAlunoRow(found.value))) else Ok(None);
    assert UserPhoto(details, s)
           == if found.Some? then Ok(Some(Photo(found.value.data.photoUrl, found.value.data.photoKey))) else Ok(None);
  }
}
