/**
 * shared/routes.ts: the admin user path, the shapes of the request bodies the
 * server validates (login, analyze, admin create and admin update), and
 * `buildUrl`, which fills `:key` placeholders in a path.
 */
module SharedRoutes {
  import opened Records

  // ---------------------------------------------------------------------------
  // Path
  // ---------------------------------------------------------------------------

  /** The path of the admin update and delete routes, the one path with a placeholder. */
  const AdminUserPath: string := "/api/admin/users/:id"

  // ---------------------------------------------------------------------------
  // Request bodies and their validation
  // ---------------------------------------------------------------------------

  /** A decoded JSON request body. Numbers are integers in this model. */
  datatype Json =
    | JNull
    | JBool(b: bool)
    | JNum(n: int)
    | JStr(s: string)
    | JArr(items: seq<Json>)
    | JObj(fields: map<string, Json>)

  datatype LoginInput = LoginInput(username: string, password: string)

  datatype AnalyzeInput = AnalyzeInput(url: string)

  /** The admin PATCH body: the only three keys the update schema lets through. */
  datatype AdminUpdate = AdminUpdate(isBanned: Option<bool>, banUntil: Option<string>, dailyLimit: Option<int>)

  /** `z.string()` on a required key. */
  function RequiredText(fields: map<string, Json>, key: string): Option<string> {
    if key in fields && fields[key].JStr? then Some(fields[key].s) else None
  }

  /**
   * The optional keys: `Some(None)` when the key is absent (or null where the
   * schema allows null), `Some(Some(v))` for a value of the right type, `None`
   * when validation fails.
   */
  function OptionalText(fields: map<string, Json>, key: string, nullable: bool): Option<Option<string>> {
    if key !in fields then Some(None)
    else match fields[key]
      case JStr(s) => Some(Some(s))
      case JNull => if nullable then Some(None) else None
      case _ => None
  }

  function OptionalNumber(fields: map<string, Json>, key: string, nullable: bool): Option<Option<int>> {
    if key !in fields then Some(None)
    else match fields[key]
      case JNum(n) => Some(Some(n))
      case JNull => if nullable then Some(None) else None
      case _ => None
  }

  function OptionalBool(fields: map<string, Json>, key: string): Option<Option<bool>> {
    if key !in fields then Some(None)
    else match fields[key]
      case JBool(b) => Some(Some(b))
      case _ => None
  }

  /**
   * `z.object({ username: z.string(), password: z.string() })`: an object whose
   * username and password are strings; any other key is dropped.
   */
  function ParseLogin(body: Json): (r: Option<LoginInput>)
    ensures r.Some? <==> body.JObj? && RequiredText(body.fields, "username").Some? && RequiredText(body.fields, "password").Some?
    ensures r.Some? ==> body.fields["username"] == JStr(r.value.username) && body.fields["password"] == JStr(r.value.password)
  {
    if !body.JObj? then None
    else
      match (RequiredText(body.fields, "username"), RequiredText(body.fields, "password"))
      case (Some(u), Some(p)) => Some(LoginInput(u, p))
      case _ => None
  }

  function LoginJson(x: LoginInput): Json {
    JObj(map["username" := JStr(x.username), "password" := JStr(x.password)])
  }

  /** A well-formed login body is accepted and read back unchanged. */
  lemma LoginRoundTrip(x: LoginInput)
    ensures ParseLogin(LoginJson(x)) == Some(x)
  {
  }

  /**
   * `z.object({ url: z.string().url() })`; the url-syntax check belongs to the
   * validation library and is the parameter `isUrl`.
   */
  function ParseAnalyze(body: Json, isUrl: string -> bool): (r: Option<AnalyzeInput>)
    ensures r.Some? <==> body.JObj? && RequiredText(body.fields, "url").Some? && isUrl(body.fields["url"].s)
    ensures r.Some? ==> body.fields["url"] == JStr(r.value.url)
  {
    if !body.JObj? then None
    else
      match RequiredText(body.fields, "url")
      case Some(u) => if isUrl(u) then Some(AnalyzeInput(u)) else None
      case None => None
  }

  /**
   * The admin create body (the insert schema of shared/schema.ts): required
   * username and password strings, an optional (nullable) role string and an
   * optional (nullable) dailyLimit number. The omitted columns (id, isBanned,
   * banUntil, usedToday, lastUsedAt) are dropped if sent.
   */
  function ParseNewUser(body: Json): (r: Option<NewUserInput>)
    ensures r.Some? <==> && body.JObj?
                         && RequiredText(body.fields, "username").Some?
                         && RequiredText(body.fields, "password").Some?
                         && OptionalText(body.fields, "role", true).Some?
                         && OptionalNumber(body.fields, "dailyLimit", true).Some?
    ensures body.JObj? && "role" in body.fields && !(body.fields["role"].JStr? || body.fields["role"].JNull?) ==> r.None?
    ensures body.JObj? && "dailyLimit" in body.fields && !(body.fields["dailyLimit"].JNum? || body.fields["dailyLimit"].JNull?) ==> r.None?
    ensures r.Some? ==> body.fields["username"] == JStr(r.value.username) && body.fields["password"] == JStr(r.value.password)
    ensures r.Some? ==> (r.value.role.Some? <==> "role" in body.fields && body.fields["role"].JStr?)
    ensures r.Some? && r.value.role.Some? ==> body.fields["role"] == JStr(r.value.role.value)
    ensures r.Some? ==> (r.value.dailyLimit.Some? <==> "dailyLimit" in body.fields && body.fields["dailyLimit"].JNum?)
    ensures r.Some? && r.value.dailyLimit.Some? ==> body.fields["dailyLimit"] == JNum(r.value.dailyLimit.value)
  {
    if !body.JObj? then None
    else
      var f := body.fields;
      match (RequiredText(f, "username"), RequiredText(f, "password"), OptionalText(f, "role", true), OptionalNumber(f, "dailyLimit", true))
      case (Some(u), Some(p), Some(role), Some(limit)) => Some(NewUserInput(u, p, role, limit))
      case _ => None
  }

  function NewUserJson(x: NewUserInput): Json {
    var base := map["username" := JStr(x.username), "password" := JStr(x.password)];
    var withRole := if x.role.Some? then base["role" := JStr(x.role.value)] else base;
    JObj(if x.dailyLimit.Some? then withRole["dailyLimit" := JNum(x.dailyLimit.value)] else withRole)
  }

  /** Every create input survives being sent as a body and validated. */
  lemma NewUserRoundTrip(x: NewUserInput)
    ensures ParseNewUser(NewUserJson(x)) == Some(x)
  {
    var f := NewUserJson(x).fields;
    assert RequiredText(f, "username") == Some(x.username);
    assert RequiredText(f, "password") == Some(x.password);
  }

  /**
   * The admin PATCH body: optional isBanned boolean, banUntil string and
   * dailyLimit number; a value is present exactly when its key is. Null is
   * refused, and every other key is dropped.
   */
  function ParseAdminUpdate(body: Json): (r: Option<AdminUpdate>)
    ensures r.Some? <==> && body.JObj?
                         && ("isBanned" in body.fields ==> body.fields["isBanned"].JBool?)
                         && ("banUntil" in body.fields ==> body.fields["banUntil"].JStr?)
                         && ("dailyLimit" in body.fields ==> body.fields["dailyLimit"].JNum?)
    ensures r.Some? ==> (r.value.isBanned.Some? <==> "isBanned" in body.fields)
    ensures r.Some? ==> (r.value.banUntil.Some? <==> "banUntil" in body.fields)
    ensures r.Some? ==> (r.value.dailyLimit.Some? <==> "dailyLimit" in body.fields)
    ensures r.Some? && r.value.isBanned.Some? ==> body.fields["isBanned"] == JBool(r.value.isBanned.value)
    ensures r.Some? && r.value.banUntil.Some? ==> body.fields["banUntil"] == JStr(r.value.banUntil.value)
    ensures r.Some? && r.value.dailyLimit.Some? ==> body.fields["dailyLimit"] == JNum(r.value.dailyLimit.value)
    ensures body.JObj? && "isBanned" !in body.fields && "banUntil" !in body.fields && "dailyLimit" !in body.fields ==>
              r == Some(AdminUpdate(None, None, None))
  {
    if !body.JObj? then None
    else
      var f := body.fields;
      match (OptionalBool(f, "isBanned"), OptionalText(f, "banUntil", false), OptionalNumber(f, "dailyLimit", false))
      case (Some(banned), Some(until), Some(limit)) => Some(AdminUpdate(banned, until, limit))
      case _ => None
  }

  /** The keys the create schema knows; the omitted columns are not among them. */
  function NewUserKeys(): set<string> {
    {"username", "password", "role", "dailyLimit"}
  }

  /**
   * Keys outside the create schema (id, isBanned, usedToday, ...) have no
   * effect: the body validates to the same input without them.
   */
  lemma NewUserIgnoresOtherKeys(fields: map<string, Json>)
    ensures ParseNewUser(JObj(fields)) == ParseNewUser(JObj(map k | k in fields && k in NewUserKeys() :: fields[k]))
  {
    var kept := map k | k in fields && k in NewUserKeys() :: fields[k];
    assert RequiredText(fields, "username") == RequiredText(kept, "username");
    assert RequiredText(fields, "password") == RequiredText(kept, "password");
    assert OptionalText(fields, "role", true) == OptionalText(kept, "role", true);
    assert OptionalNumber(fields, "dailyLimit", true) == OptionalNumber(kept, "dailyLimit", true);
  }

  function AdminUpdateJson(x: AdminUpdate): Json {
    var a: map<string, Json> := if x.isBanned.Some? then map["isBanned" := JBool(x.isBanned.value)] else map[];
    var b := if x.banUntil.Some? then a["banUntil" := JStr(x.banUntil.value)] else a;
    JObj(if x.dailyLimit.Some? then b["dailyLimit" := JNum(x.dailyLimit.value)] else b)
  }

  /** Every update survives being sent as a body and validated. */
  lemma AdminUpdateRoundTrip(x: AdminUpdate)
    ensures ParseAdminUpdate(AdminUpdateJson(x)) == Some(x)
  {
  }

  /** The three keys the update schema knows. */
  function UpdateKeys(): set<string> {
    {"isBanned", "banUntil", "dailyLimit"}
  }

  /**
   * Keys outside the update schema (username, password, role, usedToday, ...)
   * have no effect: the body validates to the same update without them.
   */
  lemma AdminUpdateIgnoresOtherKeys(fields: map<string, Json>)
    ensures ParseAdminUpdate(JObj(fields)) == ParseAdminUpdate(JObj(map k | k in fields && k in UpdateKeys() :: fields[k]))
  {
    var kept := map k | k in fields && k in UpdateKeys() :: fields[k];
    assert OptionalBool(fields, "isBanned") == OptionalBool(kept, "isBanned");
    assert OptionalText(fields, "banUntil", false) == OptionalText(kept, "banUntil", false);
    assert OptionalNumber(fields, "dailyLimit", false) == OptionalNumber(kept, "dailyLimit", false);
  }

  /** The `updates` object the PATCH handler hands to `updateUser`. */
  function PatchOf(x: AdminUpdate): (p: UserPatch)
    ensures p.usedToday.None? && p.lastUsedAt.None?
    ensures p.isBanned == x.isBanned && p.banUntil == x.banUntil && p.dailyLimit == x.dailyLimit
  {
    UserPatch(x.isBanned, x.banUntil, x.dailyLimit, None, None)
  }

  // ---------------------------------------------------------------------------
  // buildUrl
  // ---------------------------------------------------------------------------

  /** A parameter value: `string | number`. */
  datatype ParamValue = Text(text: string) | Number(n: int)

  function DigitChar(d: nat): char
    requires d < 10
  {
    "0123456789"[d]
  }

  /** Decimal digits of a natural number, most significant first. */
  function NatToString(n: nat): (s: string)
    ensures |s| > 0
    ensures forall i :: 0 <= i < |s| ==> '0' <= s[i] <= '9'
    ensures n == 0 ==> s == "0"
    ensures n > 0 ==> s[0] != '0'
  {
    if n < 10 then [DigitChar(n)] else NatToString(n / 10) + [DigitChar(n % 10)]
  }

  /** The value of a decimal digit string, the inverse of `NatToString`. */
  function DigitsValue(s: string): nat
    requires forall i :: 0 <= i < |s| ==> '0' <= s[i] <= '9'
  {
    if |s| == 0 then 0 else DigitsValue(s[..|s| - 1]) * 10 + (s[|s| - 1] - '0') as nat
  }

  /** Reading back the digits of `n` gives `n`. */
  lemma {:induction false} NatToStringRoundTrip(n: nat)
    ensures DigitsValue(NatToString(n)) == n
  {
    var s := NatToString(n);
    if n >= 10 {
      NatToStringRoundTrip(n / 10);
      assert s[..|s| - 1] == NatToString(n / 10);
    }
  }

  /**
   * `String(n)` for an integer: its decimal digits, after a '-' when it is
   * negative; it never holds a `$`, and its digits read back as `|n|`.
   */
  function IntToString(n: int): (s: string)
    ensures |s| > 0 && forall i :: 0 <= i < |s| ==> s[i] != '$'
    ensures n >= 0 ==> (forall i :: 0 <= i < |s| ==> '0' <= s[i] <= '9') && DigitsValue(s) == n
    ensures n >= 0 ==> |s| == 1 || s[0] != '0'
    ensures n < 0 ==> s[0] == '-' && (forall i :: 1 <= i < |s| ==> '0' <= s[i] <= '9') && DigitsValue(s[1..]) == -n
    ensures n < 0 ==> |s| >= 2 && s[1] != '0'
  {
    var m: nat := if n < 0 then -n else n;
    var d := NatToString(m);
    NatToStringRoundTrip(m);
    if n >= 0 then d
    else
      var s := "-" + d;
      assert s[1..] == d;
      assert forall i :: 1 <= i < |s| ==> s[i] == d[i - 1];
      s
  }

  /** `String(value)`: a string value as it is, a number as `IntToString`. */
  function ValueString(v: ParamValue): (s: string)
    ensures v.Text? ==> s == v.text
    ensures v.Number? ==> |s| > 0 && forall i :: 0 <= i < |s| ==> s[i] != '$'
    ensures v.Number? ==> s == IntToString(v.n)
  {
    match v
    case Text(t) => t
    case Number(n) => IntToString(n)
  }

  predicate OccursAt(s: string, pat: string, i: int) {
    0 <= i && i + |pat| <= |s| && s[i..i + |pat|] == pat
  }

  /** `s.indexOf(pat, from)`: the first occurrence at or after `from`, or -1. */
  function IndexFrom(s: string, pat: string, from: nat): (k: int)
    ensures k == -1 || (from <= k && OccursAt(s, pat, k))
    ensures k >= 0 ==> forall j :: from <= j < k ==> !OccursAt(s, pat, j)
    ensures k == -1 ==> forall j :: from <= j ==> !OccursAt(s, pat, j)
    decreases |s| - from
  {
    if from + |pat| > |s| then -1
    else if s[from..from + |pat|] == pat then from
    else IndexFrom(s, pat, from + 1)
  }

  /** `s.includes(pat)` */
  predicate Includes(s: string, pat: string) {
    IndexFrom(s, pat, 0) >= 0
  }

  /**
   * The replacement text `String.prototype.replace` inserts for the template
   * `r` when the pattern is a string (no capture groups): `$$` is `$`, `$&`
   * the matched text, `` $` `` the text before the match, `$'` the text after
   * it, and any other `$` stands for itself.
   */
  function Substitution(r: string, matched: string, before: string, after: string): (s: string)
    ensures (forall i :: 0 <= i < |r| ==> r[i] != '$') ==> s == r
    ensures r == "$$" ==> s == "$"
    ensures r == "$&" ==> s == matched
  {
    if |r| == 0 then ""
    else if r[0] == '$' && |r| >= 2 && r[1] == '$' then "$" + Substitution(r[2..], matched, before, after)
    else if r[0] == '$' && |r| >= 2 && r[1] == '&' then matched + Substitution(r[2..], matched, before, after)
    else if r[0] == '$' && |r| >= 2 && r[1] == '`' then before + Substitution(r[2..], matched, before, after)
    else if r[0] == '$' && |r| >= 2 && r[1] == '\'' then after + Substitution(r[2..], matched, before, after)
    else [r[0]] + Substitution(r[1..], matched, before, after)
  }

  /**
   * `s.replace(pat, rep)` with a string pattern: only the first occurrence is
   * replaced; the text before it and after it is kept.
   */
  function ReplaceFirst(s: string, pat: string, rep: string): (r: string)
    ensures IndexFrom(s, pat, 0) < 0 ==> r == s
    ensures IndexFrom(s, pat, 0) >= 0 ==>
              var k := IndexFrom(s, pat, 0);
              var tail := s[k + |pat|..];
              && k + |tail| <= |r| && r[..k] == s[..k] && r[|r| - |tail|..] == tail
    ensures IndexFrom(s, pat, 0) >= 0 && (forall i :: 0 <= i < |rep| ==> rep[i] != '$') ==>
              |r| == |s| - |pat| + |rep|
  {
    var k := IndexFrom(s, pat, 0);
    if k < 0 then s
    else s[..k] + Substitution(rep, pat, s[..k], s[k + |pat|..]) + s[k + |pat|..]
  }

  /**
   * One step of the loop: replace the first `:key` if the url contains it; a
   * url without the placeholder is left as it is.
   */
  function ApplyParam(url: string, entry: (string, ParamValue)): (r: string)
    ensures !Includes(url, ":" + entry.0) ==> r == url
    ensures Includes(url, ":" + entry.0) && entry.1.Number? ==>
              |r| == |url| - |":" + entry.0| + |ValueString(entry.1)|
  {
    var placeholder := ":" + entry.0;
    if Includes(url, placeholder) then ReplaceFirst(url, placeholder, ValueString(entry.1)) else url
  }

  /**
   * The entries applied in order, each to the result of the ones before it;
   * entries none of whose placeholders occur in the path leave it as it is.
   */
  function ApplyParams(path: string, entries: seq<(string, ParamValue)>): (r: string)
    ensures |entries| == 0 ==> r == path
    ensures (forall i :: 0 <= i < |entries| ==> !Includes(path, ":" + entries[i].0)) ==> r == path
  {
    if |entries| == 0 then path
    else ApplyParam(ApplyParams(path, entries[..|entries| - 1]), entries[|entries| - 1])
  }

  /**
   * `buildUrl(path, params)`: walks `Object.entries(params)` in order,
   * reassigning the url at each entry; an absent params object leaves the
   * path as it is.
   */
  method BuildUrl(path: string, params: Option<seq<(string, ParamValue)>>) returns (url: string)
    ensures params.None? ==> url == path
    ensures params.Some? ==> url == ApplyParams(path, params.value)
  {
    url := path;
    if params.Some? {
      var entries := params.value;
      var i := 0;
      while i < |entries|
        invariant 0 <= i <= |entries|
        invariant url == ApplyParams(path, entries[..i])
      {
        assert entries[..i + 1][..i] == entries[..i];
        var (key, value) := entries[i];
        if Includes(url, ":" + key) {
          url := ReplaceFirst(url, ":" + key, ValueString(value));
        }
        i := i + 1;
      }
      assert entries[..|entries|] == entries;
    }
  }

  /** Applying a list of entries is applying its first part, then the rest. */
  lemma {:induction false} ApplyParamsAppend(path: string, a: seq<(string, ParamValue)>, b: seq<(string, ParamValue)>)
    ensures ApplyParams(path, a + b) == ApplyParams(ApplyParams(path, a), b)
  {
    if |b| == 0 {
      assert a + b == a;
    } else {
      var b' := b[..|b| - 1];
      assert (a + b)[..|a + b| - 1] == a + b';
      ApplyParamsAppend(path, a, b');
    }
  }

  /**
   * A parameter whose placeholder occurs replaces its first occurrence, and
   * only that one, by the value's string form; number values and strings
   * without `$` are inserted literally.
   */
  lemma ParamReplacesFirst(url: string, key: string, value: ParamValue)
    requires Includes(url, ":" + key)
    requires forall i :: 0 <= i < |ValueString(value)| ==> ValueString(value)[i] != '$'
    ensures var p := ":" + key;
            var k := IndexFrom(url, p, 0);
            && OccursAt(url, p, k)
            && (forall j :: 0 <= j < k ==> !OccursAt(url, p, j))
            && ApplyParam(url, (key, value)) == url[..k] + ValueString(value) + url[k + |p|..]
  {
  }

  /** The admin user path has its one placeholder, `:id`, at position 17. */
  lemma AdminUserPathPlaceholder()
    ensures |AdminUserPath| == 20
    ensures IndexFrom(AdminUserPath, ":id", 0) == 17
    ensures AdminUserPath[..17] == "/api/admin/users/" && AdminUserPath[20..] == ""
  {
    var p := ":id";
    assert OccursAt(AdminUserPath, p, 17);
    forall j | 0 <= j < 17 ensures !OccursAt(AdminUserPath, p, j) {
      assert AdminUserPath[j] != ':';
    }
  }

  /** Applying a single entry is one step of the loop. */
  lemma ApplyOne(path: string, e: (string, ParamValue))
    ensures ApplyParams(path, [e]) == ApplyParam(path, e)
  {
    assert [e][..0] == [];
  }

  /** The admin user path with id 5 becomes "/api/admin/users/5". */
  lemma AdminUserPathExample()
    ensures ApplyParams(AdminUserPath, [("id", Number(5))]) == "/api/admin/users/5"
  {
    AdminUserPathPlaceholder();
    ApplyOne(AdminUserPath, ("id", Number(5)));
    var before := AdminUserPath[..17];
    assert ":" + "id" == ":id";
    assert ValueString(Number(5)) == "5";
    assert Substitution("5", ":id", before, "") == "5";
    assert ReplaceFirst(AdminUserPath, ":id", "5") == before + "5" + "";
  }

  /**
   * A text value is a replacement template, not literal text: the value "$&"
   * puts the placeholder itself back.
   */
  lemma DollarTemplateValue()
    ensures ApplyParams(AdminUserPath, [("id", Text("$&"))]) == AdminUserPath
  {
    AdminUserPathPlaceholder();
    ApplyOne(AdminUserPath, ("id", Text("$&")));
    var before := AdminUserPath[..17];
    assert ":" + "id" == ":id";
    assert Substitution("$&", ":id", before, "") == ":id";
    assert ReplaceFirst(AdminUserPath, ":id", "$&") == before + ":id" + "";
    assert before + ":id" + "" == AdminUserPath;
  }
}
