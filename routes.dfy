/**
 * The request handlers of server/routes.ts over the in-memory store. A session
 * is the optional `userId` it holds; the extraction tool's answer is an input.
 * The gates (`requireAuth`, `requireAdmin`, the credential check and the quota
 * check) are functions; each handler is a method that runs the gates and then
 * the store operations in the source's order.
 */
module Routes {
  import opened Records
  import opened Tables
  import opened Storage
  import opened Extractor
  import opened SharedRoutes

  datatype Body =
    | Message(text: string)
    | UserJson(user: User)
    | UsersJson(users: seq<User>)
    | DownloadsJson(downloads: seq<Download>)
    | AnalysisJson(analysis: Analysis)
    | NullJson
    | SuccessJson
    | NoBody

  /**
   * A handler's answer: a status with a body, or an exception that escapes the
   * handler (a failed validation outside any `try`, or "User not found" from
   * the store). What the server then sends, if anything, is not modelled.
   */
  datatype Response = Reply(status: nat, body: Body) | Unhandled(error: string)

  /** `req.session.userId`: absent until a login succeeds. */
  type Session = Option<int>

  const InvalidBody: string := "request body failed validation"

  // ---------------------------------------------------------------------------
  // Gates
  // ---------------------------------------------------------------------------

  /**
   * `requireAuth`: 401 without a (truthy) session user id, for an id no user
   * has any more, and for a banned user; otherwise the stored user passes.
   */
  function RequireAuth(session: Session, users: seq<User>): (r: Result<User, Response>)
    ensures r.Err? ==> r.error.Reply? && r.error.status == 401
    ensures r.Ok? <==> && TruthyNumber(session)
                       && IndexOfId(users, session.value) >= 0
                       && !users[IndexOfId(users, session.value)].isBanned
    ensures r.Ok? ==> r.value == users[IndexOfId(users, session.value)] && r.value.id == session.value
  {
    if !TruthyNumber(session) then Err(Reply(401, Message("Unauthorized")))
    else
      match FindById(users, session.value)
      case None => Err(Reply(401, Message("Unauthorized")))
      case Some(user) => if user.isBanned then Err(Reply(401, Message("Banned"))) else Ok(user)
  }

  /** `requireAdmin`: 403 for any role other than "admin". */
  function RequireAdmin(user: User): (r: Option<Response>)
    ensures r.Some? <==> user.role != "admin"
    ensures r.Some? ==> r.value.Reply? && r.value.status == 403
  {
    if user.role != "admin" then Some(Reply(403, Message("Admin only"))) else None
  }

  /**
   * `requireAuth` then `requireAdmin`, as every admin route chains them: a
   * request that fails authentication gets 401, never 403; an authenticated
   * non-admin gets 403; only an authenticated admin passes.
   */
  function AdminGate(session: Session, users: seq<User>): (r: Result<User, Response>)
    ensures RequireAuth(session, users).Err? ==> r.Err? && r.error.Reply? && r.error.status == 401
    ensures RequireAuth(session, users).Ok? && RequireAuth(session, users).value.role != "admin" ==>
              r.Err? && r.error.Reply? && r.error.status == 403
    ensures r.Ok? <==> RequireAuth(session, users).Ok? && RequireAuth(session, users).value.role == "admin"
    ensures r.Ok? ==> r == RequireAuth(session, users)
  {
    match RequireAuth(session, users)
    case Err(e) => Err(e)
    case Ok(user) =>
      match RequireAdmin(user)
      case Some(e) => Err(e)
      case None => Ok(user)
  }

  /**
   * The login check: 401 when no user has the name or the password differs
   * (one message for both), 401 for a banned user even with the right
   * password; otherwise the first user with that name.
   */
  function CheckCredentials(users: seq<User>, input: LoginInput): (r: Result<User, Response>)
    ensures r.Err? ==> r.error.Reply? && r.error.status == 401
    ensures r.Ok? <==> && IndexOfName(users, input.username) >= 0
                       && users[IndexOfName(users, input.username)].password == input.password
                       && !users[IndexOfName(users, input.username)].isBanned
    ensures r.Ok? ==> r.value == users[IndexOfName(users, input.username)]
  {
    match FindByUsername(users, input.username)
    case None => Err(Reply(401, Message("Invalid credentials")))
    case Some(user) =>
      if user.password != input.password then Err(Reply(401, Message("Invalid credentials")))
      else if user.isBanned then Err(Reply(401, Message("Account banned")))
      else Ok(user)
  }

  /**
   * The analyze route's quota check: the day's count has reached the limit, so
   * a limit of 0 refuses every request and a count below the limit refuses none.
   */
  predicate QuotaReached(user: User)
    ensures user.dailyLimit <= 0 && user.usedToday >= 0 ==> QuotaReached(user)
    ensures user.usedToday < user.dailyLimit ==> !QuotaReached(user)
  {
    user.usedToday >= user.dailyLimit
  }

  /**
   * Everything the analyze route decides before it runs the extraction tool:
   * authentication (401), then the body (an invalid body is caught by the
   * handler's outer `try`: 500), then the quota (403). It passes only an
   * authenticated user under quota with a valid url.
   */
  function AnalyzeGate(session: Session, users: seq<User>, body: Json, isUrl: string -> bool): (r: Result<(User, string), Response>)
    ensures RequireAuth(session, users).Err? ==> r == Err(RequireAuth(session, users).error)
    ensures RequireAuth(session, users).Ok? && ParseAnalyze(body, isUrl).None? ==>
              r == Err(Reply(500, Message("Internal server error")))
    ensures RequireAuth(session, users).Ok? && ParseAnalyze(body, isUrl).Some? && QuotaReached(RequireAuth(session, users).value) ==>
              r == Err(Reply(403, Message("Daily limit reached.")))
    ensures r.Ok? <==> && RequireAuth(session, users).Ok?
                       && ParseAnalyze(body, isUrl).Some?
                       && !QuotaReached(RequireAuth(session, users).value)
    ensures r.Ok? ==> r.value.0 == RequireAuth(session, users).value && r.value.1 == ParseAnalyze(body, isUrl).value.url
  {
    match RequireAuth(session, users)
    case Err(e) => Err(e)
    case Ok(user) =>
      match ParseAnalyze(body, isUrl)
      case None => Err(Reply(500, Message("Internal server error")))
      case Some(input) =>
        if QuotaReached(user) then Err(Reply(403, Message("Daily limit reached.")))
        else Ok((user, input.url))
  }

  /** The owner filter history passes to `getDownloads`: none for an admin, the caller's id otherwise. */
  function HistoryScope(user: User): (r: Option<int>)
    ensures r.None? <==> user.role == "admin"
    ensures r.Some? ==> r.value == user.id
  {
    if user.role == "admin" then None else Some(user.id)
  }

  // ---------------------------------------------------------------------------
  // Handlers
  // ---------------------------------------------------------------------------

  /** POST /api/login: on success the session's user id becomes the user's id. */
  method Login(store: LocalFileStorage, session: Session, body: Json) returns (resp: Response, session': Session)
    ensures ParseLogin(body).None? ==> resp.Unhandled? && session' == session
    ensures ParseLogin(body).Some? && CheckCredentials(store.users, ParseLogin(body).value).Err? ==>
              resp == CheckCredentials(store.users, ParseLogin(body).value).error && session' == session
    ensures ParseLogin(body).Some? && CheckCredentials(store.users, ParseLogin(body).value).Ok? ==>
              var user := CheckCredentials(store.users, ParseLogin(body).value).value;
              resp == Reply(200, UserJson(user)) && session' == Some(user.id)
  {
    var input := ParseLogin(body);
    if input.None? {
      return Unhandled(InvalidBody), session;
    }
    var checked := CheckCredentials(store.GetUsers(), input.value);
    if checked.Err? {
      return checked.error, session;
    }
    session' := Some(checked.value.id);
    resp := Reply(200, UserJson(checked.value));
  }

  /** POST /api/logout: the session is destroyed. */
  method Logout(session: Session) returns (resp: Response, session': Session)
    ensures resp == Reply(200, SuccessJson) && session' == None
  {
    resp, session' := Reply(200, SuccessJson), None;
  }

  /** GET /api/me: the session's user, banned or not, or null. */
  method Me(store: LocalFileStorage, session: Session) returns (resp: Response)
    ensures !TruthyNumber(session) ==> resp == Reply(200, NullJson)
    ensures TruthyNumber(session) && IndexOfId(store.users, session.value) == -1 ==> resp == Reply(200, NullJson)
    ensures TruthyNumber(session) && IndexOfId(store.users, session.value) >= 0 ==>
              resp == Reply(200, UserJson(store.users[IndexOfId(store.users, session.value)]))
  {
    if !TruthyNumber(session) {
      return Reply(200, NullJson);
    }
    match store.GetUser(session.value)
    case None => resp := Reply(200, NullJson);
    case Some(user) => resp := Reply(200, UserJson(user));
  }

  /**
   * POST /api/analyze. The tool runs (`invoked`) only after the gate passes;
   * a refused request and a failed extraction change nothing; a successful
   * one appends exactly one download for the caller and then raises the
   * caller's usage by one.
   */
  method Analyze(store: LocalFileStorage, session: Session, body: Json, isUrl: string -> bool, outcome: Outcome, now: nat)
    returns (resp: Response, invoked: bool)
    requires store.Valid()
    modifies store
    ensures store.Valid()
    ensures invoked <==> AnalyzeGate(session, old(store.users), body, isUrl).Ok?
    ensures !invoked ==> resp == AnalyzeGate(session, old(store.users), body, isUrl).error
    ensures invoked && outcome.Failed? ==> resp == Reply(400, Message("Failed to process video."))
    ensures !invoked || outcome.Failed? ==> store.users == old(store.users) && store.downloads == old(store.downloads)
    ensures invoked && outcome.Extracted? ==>
              var (user, url) := AnalyzeGate(session, old(store.users), body, isUrl).value;
              var a := Summarize(outcome.info);
              var k := IndexOfId(old(store.users), user.id);
              && resp == Reply(200, AnalysisJson(a))
              && store.downloads == old(store.downloads) + [NewDownloadRow(NewDownload(user.id, url, a.title, a.thumbnail, a.formats), old(store.downloads), now)]
              && 0 <= k && old(store.users)[k] == user
              && store.users == old(store.users)[k := user.(usedToday := user.usedToday + 1, lastUsedAt := Some(now))]
  {
    var gate := AnalyzeGate(session, store.GetUsers(), body, isUrl);
    if gate.Err? {
      return gate.error, false;
    }
    var (user, url) := gate.value;
    invoked := true;
    if outcome.Failed? {
      return Reply(400, Message("Failed to process video.")), invoked;
    }
    var result := Summarize(outcome.info);
    var _ := store.CreateDownload(NewDownload(user.id, url, result.title, result.thumbnail, result.formats), now);
    // The user `requireAuth` found is still in the table, so in a sequential run
    // the update cannot fail and the catch that turns its error into a 400 is
    // never reached.
    var updated := store.UpdateUser(user.id, UserPatch(None, None, None, Some(user.usedToday + 1), Some(now)));
    assert updated.Ok?;
    resp := Reply(200, AnalysisJson(result));
  }

  /**
   * GET /api/history: an admin gets the whole table's newest 20, anyone else
   * only their own newest 20.
   */
  method GetHistory(store: LocalFileStorage, session: Session) returns (resp: Response)
    requires store.Valid()
    ensures RequireAuth(session, store.users).Err? ==> resp == RequireAuth(session, store.users).error
    ensures RequireAuth(session, store.users).Ok? ==>
              var user := RequireAuth(session, store.users).value;
              && resp.Reply? && resp.status == 200 && resp.body.DownloadsJson?
              && resp.body.downloads == History(store.downloads, HistoryScope(user))
              && (user.role == "admin" ==> resp.body.downloads == History(store.downloads, None))
              && (user.role != "admin" ==> forall i :: 0 <= i < |resp.body.downloads| ==> resp.body.downloads[i].userId == user.id)
  {
    var auth := RequireAuth(session, store.GetUsers());
    if auth.Err? {
      return auth.error;
    }
    var user := auth.value;
    assert user.id >= 1 by {
      var k := IndexOfId(store.users, session.value);
      assert UserIds(store.users)[k] == user.id;
    }
    resp := Reply(200, DownloadsJson(store.GetDownloads(HistoryScope(user))));
  }

  /** GET /api/admin/users: every user, to an admin only. */
  method AdminListUsers(store: LocalFileStorage, session: Session) returns (resp: Response)
    ensures AdminGate(session, store.users).Err? ==> resp == AdminGate(session, store.users).error
    ensures AdminGate(session, store.users).Ok? ==> resp == Reply(200, UsersJson(store.users))
  {
    var gate := AdminGate(session, store.GetUsers());
    if gate.Err? {
      return gate.error;
    }
    resp := Reply(200, UsersJson(store.GetUsers()));
  }

  /** POST /api/admin/users: 201 with the created user. */
  method AdminCreateUser(store: LocalFileStorage, session: Session, body: Json) returns (resp: Response)
    requires store.Valid()
    modifies store
    ensures store.Valid()
    ensures store.downloads == old(store.downloads)
    ensures AdminGate(session, old(store.users)).Err? ==>
              resp == AdminGate(session, old(store.users)).error && store.users == old(store.users)
    ensures AdminGate(session, old(store.users)).Ok? && ParseNewUser(body).None? ==>
              resp.Unhandled? && store.users == old(store.users)
    ensures AdminGate(session, old(store.users)).Ok? && ParseNewUser(body).Some? ==>
              var user := NewUser(ParseNewUser(body).value, old(store.users));
              resp == Reply(201, UserJson(user)) && store.users == old(store.users) + [user]
  {
    var gate := AdminGate(session, store.GetUsers());
    if gate.Err? {
      return gate.error;
    }
    var input := ParseNewUser(body);
    if input.None? {
      return Unhandled(InvalidBody);
    }
    var user := store.CreateUser(input.value);
    resp := Reply(201, UserJson(user));
  }

  /**
   * PATCH /api/admin/users/:id with the path's id already through `parseInt`
   * (`None` for NaN): merges the validated update into that user; an unknown
   * id escapes as "User not found".
   */
  method AdminUpdateUser(store: LocalFileStorage, session: Session, id: Option<int>, body: Json) returns (resp: Response)
    requires store.Valid()
    modifies store
    ensures store.Valid()
    ensures store.downloads == old(store.downloads)
    ensures AdminGate(session, old(store.users)).Err? ==>
              resp == AdminGate(session, old(store.users)).error && store.users == old(store.users)
    ensures AdminGate(session, old(store.users)).Ok? && ParseAdminUpdate(body).None? ==>
              resp.Unhandled? && store.users == old(store.users)
    ensures AdminGate(session, old(store.users)).Ok? && ParseAdminUpdate(body).Some? &&
            (id.None? || IndexOfId(old(store.users), id.value) == -1) ==>
              resp == Unhandled("User not found") && store.users == old(store.users)
    ensures AdminGate(session, old(store.users)).Ok? && ParseAdminUpdate(body).Some? &&
            id.Some? && IndexOfId(old(store.users), id.value) >= 0 ==>
              var k := IndexOfId(old(store.users), id.value);
              var user := ApplyPatch(old(store.users)[k], PatchOf(ParseAdminUpdate(body).value));
              resp == Reply(200, UserJson(user)) && store.users == old(store.users)[k := user]
  {
    var gate := AdminGate(session, store.GetUsers());
    if gate.Err? {
      return gate.error;
    }
    var updates := ParseAdminUpdate(body);
    if updates.None? {
      return Unhandled(InvalidBody);
    }
    if id.None? {
      // `updateUser(NaN, ...)`: no id equals NaN.
      return Unhandled("User not found");
    }
    var updated := store.UpdateUser(id.value, PatchOf(updates.value));
    match updated
    case Err(message) => resp := Unhandled(message);
    case Ok(user) => resp := Reply(200, UserJson(user));
  }

  /**
   * DELETE /api/admin/users/:id: 204, with every user of that id removed; the
   * user's downloads stay. A NaN id matches nobody, so nothing is removed.
   */
  method AdminDeleteUser(store: LocalFileStorage, session: Session, id: Option<int>) returns (resp: Response)
    requires store.Valid()
    modifies store
    ensures store.Valid()
    ensures store.downloads == old(store.downloads)
    ensures AdminGate(session, old(store.users)).Err? ==>
              resp == AdminGate(session, old(store.users)).error && store.users == old(store.users)
    ensures AdminGate(session, old(store.users)).Ok? ==> resp == Reply(204, NoBody)
    ensures AdminGate(session, old(store.users)).Ok? && id.None? ==> store.users == old(store.users)
    ensures AdminGate(session, old(store.users)).Ok? && id.Some? ==> store.users == WithoutId(old(store.users), id.value)
  {
    var gate := AdminGate(session, store.GetUsers());
    if gate.Err? {
      return gate.error;
    }
    if id.Some? {
      store.DeleteUser(id.value);
    }
    resp := Reply(204, NoBody);
  }

  // ---------------------------------------------------------------------------
  // Properties across handlers
  // ---------------------------------------------------------------------------

  /**
   * A validated PATCH body cannot touch a user's id, username, password, role,
   * usage counter or last-use time, whatever keys the request carried.
   */
  lemma AdminPatchKeepsProtectedFields(u: User, body: Json)
    requires ParseAdminUpdate(body).Some?
    ensures var v := ApplyPatch(u, PatchOf(ParseAdminUpdate(body).value));
            && v.id == u.id && v.username == u.username && v.password == u.password
            && v.role == u.role && v.usedToday == u.usedToday && v.lastUsedAt == u.lastUsedAt
  {
  }

  /**
   * After an admin sets a user's dailyLimit to 0, that user's next analyze
   * request is refused with 403 before the tool runs.
   */
  lemma ZeroLimitBlocksAnalyze(users: seq<User>, k: int, body: Json, isUrl: string -> bool)
    requires UsersValid(users)
    requires 0 <= k < |users| && !users[k].isBanned
    requires ParseAnalyze(body, isUrl).Some?
    ensures var users' := users[k := ApplyPatch(users[k], PatchOf(AdminUpdate(None, None, Some(0))))];
            AnalyzeGate(Some(users[k].id), users', body, isUrl) == Err(Reply(403, Message("Daily limit reached.")))
  {
    var users' := users[k := ApplyPatch(users[k], PatchOf(AdminUpdate(None, None, Some(0))))];
    assert UserIds(users') == UserIds(users);
    FindByIdUnique(users', users[k].id, k);
    assert UserIds(users)[k] >= 1;
  }

  /** Banning a user through PATCH locks out every session already open for them. */
  lemma BanRevokesSession(users: seq<User>, k: int)
    requires UniquePositive(UserIds(users))
    requires 0 <= k < |users|
    ensures var users' := users[k := ApplyPatch(users[k], PatchOf(AdminUpdate(Some(true), None, None)))];
            RequireAuth(Some(users[k].id), users') == Err(Reply(401, Message("Banned")))
  {
    var users' := users[k := ApplyPatch(users[k], PatchOf(AdminUpdate(Some(true), None, None)))];
    assert UserIds(users') == UserIds(users);
    FindByIdUnique(users', users[k].id, k);
    assert UserIds(users)[k] >= 1;
  }

  /**
   * Ids are reused, and sessions are not revoked on delete: when the user with
   * the largest id is deleted and the next largest id is one less, a session
   * still holding the deleted id is refused until the next user is created,
   * and from then on it is authenticated as that new user.
   */
  lemma StaleSessionAdoptsNextUser(users: seq<User>, input: NewUserInput, i: int, j: int)
    requires UniquePositive(UserIds(users))
    requires 0 <= i < |users| && 0 <= j < |users|
    requires forall k :: 0 <= k < |users| ==> users[k].id <= users[i].id
    requires users[j].id == users[i].id - 1
    ensures var rest := WithoutId(users, users[i].id);
            && RequireAuth(Some(users[i].id), rest).Err?
            && RequireAuth(Some(users[i].id), rest + [NewUser(input, rest)]) == Ok(NewUser(input, rest))
  {
    var m := users[i].id;
    var rest := WithoutId(users, m);
    IdReusedAfterDelete(users, input, i, j);
    assert IndexOfId(rest, m) == -1;
    WithoutIdKeepsUnique(users, m);
    AppendedUserAuthenticates(rest, NewUser(input, rest));
  }

  /** A user appended with the allocated id, not banned, is who a session holding that id authenticates as. */
  lemma AppendedUserAuthenticates(rest: seq<User>, u: User)
    requires UniquePositive(UserIds(rest))
    requires u.id == NextId(UserIds(rest)) && !u.isBanned
    ensures RequireAuth(Some(u.id), rest + [u]) == Ok(u)
  {
    AllocatedIdKeepsUnique(UserIds(rest));
    assert UserIds(rest + [u]) == UserIds(rest) + [u.id];
    assert UserIds(rest + [u])[|rest|] >= 1;
    FindByIdUnique(rest + [u], u.id, |rest|);
  }

  /** The seeded admin can log in with the seeded credentials. */
  lemma SeedAdminLogsIn()
    ensures CheckCredentials([SeedAdmin], LoginInput("Admin", "Admin123")) == Ok(SeedAdmin)
  {
  }

  /**
   * From the seeded state, creating {username: "bob", password: "x"} stores bob
   * with id 2, role "user", dailyLimit 10, usedToday 0, not banned.
   */
  lemma SeedThenCreateBob()
    ensures var bob := NewUser(NewUserInput("bob", "x", None, None), [SeedAdmin]);
            && bob.id == 2 && bob.role == "user" && bob.dailyLimit == 10
            && bob.usedToday == 0 && !bob.isBanned
  {
  }
}
