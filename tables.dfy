/**
 * Pure operations on the two tables of the local database (server/storage.ts):
 * id allocation, lookups, record construction, partial merge, delete-by-filter
 * and the newest-first history query. The storage class applies them to its
 * fields; everything worth proving about the tables is proved here.
 */
module Tables {
  import opened Records

  // ---------------------------------------------------------------------------
  // Id allocation: `ids.length > 0 ? Math.max(...ids) + 1 : 1`
  // ---------------------------------------------------------------------------

  function UserIds(users: seq<User>): seq<int> {
    seq(|users|, i requires 0 <= i < |users| => users[i].id)
  }

  function DownloadIds(downloads: seq<Download>): seq<int> {
    seq(|downloads|, i requires 0 <= i < |downloads| => downloads[i].id)
  }

  /** `Math.max(...s)` on a non-empty list: an element that bounds all others. */
  function MaxOf(s: seq<int>): (m: int)
    requires |s| > 0
    ensures m in s
    ensures forall i :: 0 <= i < |s| ==> s[i] <= m
  {
    if |s| == 1 then s[0]
    else
      var rest := MaxOf(s[1..]);
      assert rest in s by { assert rest in s[1..]; }
      if s[0] >= rest then s[0] else rest
  }

  /**
   * The id the next created record receives: 1 for an empty table, else one
   * more than the largest id. It exceeds every existing id, so it is fresh.
   */
  function NextId(ids: seq<int>): (n: int)
    ensures forall i :: 0 <= i < |ids| ==> ids[i] < n
    ensures |ids| == 0 ==> n == 1
    ensures |ids| > 0 ==> n - 1 in ids
  {
    if |ids| > 0 then MaxOf(ids) + 1 else 1
  }

  /** Every id is positive and no two rows share one. */
  predicate UniquePositive(ids: seq<int>) {
    && (forall i :: 0 <= i < |ids| ==> ids[i] >= 1)
    && (forall i, j :: 0 <= i < j < |ids| ==> ids[i] != ids[j])
  }

  /**
   * What every writer keeps true of the users table: unique positive ids, and
   * usage counters that start at 0 (create) and only ever grow by one (analyze).
   */
  predicate UsersValid(users: seq<User>) {
    && UniquePositive(UserIds(users))
    && (forall i :: 0 <= i < |users| ==> users[i].usedToday >= 0)
  }

  /** Appending a row with the allocated id keeps the ids unique and positive. */
  lemma {:induction false} AllocatedIdKeepsUnique(ids: seq<int>)
    requires UniquePositive(ids)
    ensures UniquePositive(ids + [NextId(ids)])
  {
    var n := NextId(ids);
    if |ids| > 0 {
      assert n - 1 >= 1 by { var k :| 0 <= k < |ids| && ids[k] == n - 1; }
    }
    forall i, j | 0 <= i < j < |ids + [n]|
      ensures (ids + [n])[i] != (ids + [n])[j]
    {
      if j == |ids| { assert (ids + [n])[i] == ids[i] < n; }
    }
  }

  // ---------------------------------------------------------------------------
  // Lookups: `users.find(...)` and `users.findIndex(...)`
  // ---------------------------------------------------------------------------

  /** `users.findIndex(u => u.id === id)`: the first row with that id, or -1. */
  function IndexOfId(users: seq<User>, id: int): (k: int)
    ensures -1 <= k < |users|
    ensures k >= 0 ==> users[k].id == id && forall j :: 0 <= j < k ==> users[j].id != id
    ensures k == -1 ==> forall j :: 0 <= j < |users| ==> users[j].id != id
  {
    if |users| == 0 then -1
    else if users[0].id == id then 0
    else
      var k := IndexOfId(users[1..], id);
      if k == -1 then -1 else k + 1
  }

  /** `users.find(u => u.username === name)`'s position: the first such row, or -1. */
  function IndexOfName(users: seq<User>, name: string): (k: int)
    ensures -1 <= k < |users|
    ensures k >= 0 ==> users[k].username == name && forall j :: 0 <= j < k ==> users[j].username != name
    ensures k == -1 ==> forall j :: 0 <= j < |users| ==> users[j].username != name
  {
    if |users| == 0 then -1
    else if users[0].username == name then 0
    else
      var k := IndexOfName(users[1..], name);
      if k == -1 then -1 else k + 1
  }

  /** `users.find(u => u.id === id)`: the first row with the id, or nothing when none has it. */
  function FindById(users: seq<User>, id: int): (r: Option<User>)
    ensures r.None? <==> forall j :: 0 <= j < |users| ==> users[j].id != id
    ensures r.Some? ==> r.value in users && r.value.id == id
    ensures r.Some? ==> 0 <= IndexOfId(users, id) < |users| && r.value == users[IndexOfId(users, id)]
  {
    var k := IndexOfId(users, id);
    if k >= 0 then Some(users[k]) else None
  }

  /** `users.find(u => u.username === name)`: the first row with the name, or nothing. */
  function FindByUsername(users: seq<User>, name: string): (r: Option<User>)
    ensures r.None? <==> forall j :: 0 <= j < |users| ==> users[j].username != name
    ensures r.Some? ==> r.value in users && r.value.username == name
    ensures r.Some? ==> 0 <= IndexOfName(users, name) < |users| && r.value == users[IndexOfName(users, name)]
    ensures r.Some? ==> forall j :: 0 <= j < IndexOfName(users, name) ==> users[j].username != name
  {
    var k := IndexOfName(users, name);
    if k >= 0 then Some(users[k]) else None
  }

  /**
   * In a table whose ids are unique, the row `find` returns for an id is the
   * only row with that id.
   */
  lemma FindByIdUnique(users: seq<User>, id: int, i: int)
    requires UniquePositive(UserIds(users))
    requires 0 <= i < |users| && users[i].id == id
    ensures FindById(users, id) == Some(users[i])
  {
    var k := IndexOfId(users, id);
    assert k >= 0;
    assert UserIds(users)[k] == id && UserIds(users)[i] == id;
  }

  // ---------------------------------------------------------------------------
  // Record construction: createUser, createDownload
  // ---------------------------------------------------------------------------

  /**
   * The row `createUser` appends: the input's username and password, a fresh
   * id, usage and ban state forced to 0 and false, and `role || "user"`,
   * `dailyLimit || 10` for the two defaulted fields.
   */
  function NewUser(input: NewUserInput, users: seq<User>): (u: User)
    ensures u.id == NextId(UserIds(users))
    ensures forall i :: 0 <= i < |users| ==> users[i].id != u.id
    ensures u.username == input.username && u.password == input.password
    ensures u.usedToday == 0 && !u.isBanned
    ensures u.banUntil == None && u.lastUsedAt == None
    ensures TruthyText(input.role) ==> u.role == input.role.value
    ensures !TruthyText(input.role) ==> u.role == "user"
    ensures u.role != ""
    ensures TruthyNumber(input.dailyLimit) ==> u.dailyLimit == input.dailyLimit.value
    ensures input.dailyLimit == None || input.dailyLimit == Some(0) ==> u.dailyLimit == 10
    ensures u.dailyLimit != 0
  {
    var ids := UserIds(users);
    assert forall i :: 0 <= i < |users| ==> users[i].id == ids[i];
    User(
      id := NextId(ids),
      username := input.username,
      password := input.password,
      role := TextOr(input.role, "user"),
      isBanned := false,
      banUntil := None,
      dailyLimit := NumberOr(input.dailyLimit, 10),
      usedToday := 0,
      lastUsedAt := None)
  }

  /** The row `createDownload` appends: the input's fields, a fresh id and the creation time. */
  function NewDownloadRow(input: NewDownload, downloads: seq<Download>, now: nat): (d: Download)
    ensures d.id == NextId(DownloadIds(downloads))
    ensures forall i :: 0 <= i < |downloads| ==> downloads[i].id != d.id
    ensures d.userId == input.userId && d.originalUrl == input.originalUrl
    ensures d.title == input.title && d.thumbnail == input.thumbnail && d.formats == input.formats
    ensures d.createdAt == now
  {
    var ids := DownloadIds(downloads);
    assert forall i :: 0 <= i < |downloads| ==> downloads[i].id == ids[i];
    Download(NextId(ids), input.userId, input.originalUrl, input.title, input.thumbnail, input.formats, now)
  }

  // ---------------------------------------------------------------------------
  // Partial merge: `{ ...user, ...updates }`
  // ---------------------------------------------------------------------------

  /**
   * The merged row: a field the patch carries takes the patch's value, every
   * other field keeps the row's value. Identity, credentials and role are never
   * among the patchable fields.
   */
  function ApplyPatch(u: User, p: UserPatch): (v: User)
    ensures v.id == u.id && v.username == u.username && v.password == u.password && v.role == u.role
    ensures p.isBanned.Some? ==> v.isBanned == p.isBanned.value
    ensures p.banUntil.Some? ==> v.banUntil == p.banUntil
    ensures p.dailyLimit.Some? ==> v.dailyLimit == p.dailyLimit.value
    ensures p.usedToday.Some? ==> v.usedToday == p.usedToday.value
    ensures p.lastUsedAt.Some? ==> v.lastUsedAt == p.lastUsedAt
    ensures p.isBanned.None? ==> v.isBanned == u.isBanned
    ensures p.banUntil.None? ==> v.banUntil == u.banUntil
    ensures p.dailyLimit.None? ==> v.dailyLimit == u.dailyLimit
    ensures p.usedToday.None? ==> v.usedToday == u.usedToday
    ensures p.lastUsedAt.None? ==> v.lastUsedAt == u.lastUsedAt
  {
    u.(isBanned := if p.isBanned.Some? then p.isBanned.value else u.isBanned,
       banUntil := if p.banUntil.Some? then p.banUntil else u.banUntil,
       dailyLimit := if p.dailyLimit.Some? then p.dailyLimit.value else u.dailyLimit,
       usedToday := if p.usedToday.Some? then p.usedToday.value else u.usedToday,
       lastUsedAt := if p.lastUsedAt.Some? then p.lastUsedAt else u.lastUsedAt)
  }

  /** Merging the same patch twice is merging it once. */
  lemma ApplyPatchIdempotent(u: User, p: UserPatch)
    ensures ApplyPatch(ApplyPatch(u, p), p) == ApplyPatch(u, p)
  {
  }

  // ---------------------------------------------------------------------------
  // Delete by filter: `users.filter(u => u.id !== id)`
  // ---------------------------------------------------------------------------

  /** The table without the rows carrying `id`; every other row is kept. */
  function WithoutId(users: seq<User>, id: int): (r: seq<User>)
    ensures |r| <= |users|
    ensures forall i :: 0 <= i < |r| ==> r[i].id != id && r[i] in users
    ensures forall i :: 0 <= i < |users| && users[i].id != id ==> users[i] in r
  {
    if |users| == 0 then []
    else if users[0].id == id then WithoutId(users[1..], id)
    else [users[0]] + WithoutId(users[1..], id)
  }

  /** The filter works row by row, so it keeps the surviving rows in their order. */
  lemma {:induction false} WithoutIdAppend(a: seq<User>, b: seq<User>, id: int)
    ensures WithoutId(a + b, id) == WithoutId(a, id) + WithoutId(b, id)
  {
    if |a| > 0 {
      assert (a + b)[1..] == a[1..] + b;
      WithoutIdAppend(a[1..], b, id);
    } else {
      assert a + b == b;
    }
  }

  /** Deleting an id that no row carries leaves the table as it was. */
  lemma {:induction false} WithoutAbsentId(users: seq<User>, id: int)
    requires forall i :: 0 <= i < |users| ==> users[i].id != id
    ensures WithoutId(users, id) == users
  {
    if |users| > 0 {
      WithoutAbsentId(users[1..], id);
    }
  }

  /** Deleting is idempotent: the second delete of the same id changes nothing. */
  lemma WithoutIdIdempotent(users: seq<User>, id: int)
    ensures WithoutId(WithoutId(users, id), id) == WithoutId(users, id)
  {
    WithoutAbsentId(WithoutId(users, id), id);
  }

  /** Deleting keeps the ids of the remaining rows unique and positive. */
  lemma {:induction false} WithoutIdKeepsUnique(users: seq<User>, id: int)
    requires UniquePositive(UserIds(users))
    ensures UniquePositive(UserIds(WithoutId(users, id)))
  {
    if |users| > 0 {
      var tail := users[1..];
      assert UniquePositive(UserIds(tail)) by {
        assert forall i :: 0 <= i < |tail| ==> UserIds(tail)[i] == UserIds(users)[i + 1];
      }
      WithoutIdKeepsUnique(tail, id);
      if users[0].id != id {
        var rest := WithoutId(tail, id);
        var r := [users[0]] + rest;
        forall i, j | 0 <= i < j < |r| ensures UserIds(r)[i] != UserIds(r)[j] {
          if i == 0 {
            assert r[j] in tail;
            var k :| 0 <= k < |tail| && tail[k] == r[j];
            assert UserIds(users)[0] != UserIds(users)[k + 1];
          } else {
            assert UserIds(r)[i] == UserIds(rest)[i - 1];
            assert UserIds(r)[j] == UserIds(rest)[j - 1];
          }
        }
        assert forall i :: 0 <= i < |r| ==> UserIds(r)[i] >= 1 by {
          forall i | 0 <= i < |r| ensures UserIds(r)[i] >= 1 {
            if i > 0 {
              assert UserIds(r)[i] == UserIds(rest)[i - 1];
            } else {
              assert UserIds(r)[0] == UserIds(users)[0];
            }
          }
        }
      }
    }
  }

  /**
   * Ids are reused: when the row with the largest id is deleted and the next
   * largest id is one less, the next created row gets the deleted row's id.
   */
  lemma IdReusedAfterDelete(users: seq<User>, input: NewUserInput, i: int, j: int)
    requires UniquePositive(UserIds(users))
    requires 0 <= i < |users| && 0 <= j < |users|
    requires forall k :: 0 <= k < |users| ==> users[k].id <= users[i].id
    requires users[j].id == users[i].id - 1
    ensures NewUser(input, WithoutId(users, users[i].id)).id == users[i].id
  {
    var m := users[i].id;
    var rest := WithoutId(users, m);
    var ids := UserIds(rest);
    assert users[j] in rest;
    var p :| 0 <= p < |rest| && rest[p] == users[j];
    assert ids[p] == m - 1;
    forall k | 0 <= k < |ids| ensures ids[k] < m {
      assert ids[k] == rest[k].id;
      var l :| 0 <= l < |users| && users[l] == rest[k];
    }
    NextIdOfBoundedIds(ids, m, p);
  }

  /** When `m - 1` is present and every id is below `m`, the next id is `m`. */
  lemma NextIdOfBoundedIds(ids: seq<int>, m: int, p: int)
    requires 0 <= p < |ids| && ids[p] == m - 1
    requires forall k :: 0 <= k < |ids| ==> ids[k] < m
    ensures NextId(ids) == m
  {
    assert ids[p] < NextId(ids);
  }

  // ---------------------------------------------------------------------------
  // History query: filter by owner, newest first, at most 20
  // ---------------------------------------------------------------------------

  /** The page size of the history query. */
  const HistoryLimit: nat := 20

  /** `downloads.filter(d => d.userId === userId)` */
  function OwnedBy(downloads: seq<Download>, userId: int): (r: seq<Download>)
    ensures |r| <= |downloads|
    ensures forall i :: 0 <= i < |r| ==> r[i].userId == userId
    ensures forall d :: d in downloads && d.userId == userId ==> d in r
    ensures multiset(r) <= multiset(downloads)
  {
    if |downloads| == 0 then []
    else
      assert downloads == [downloads[0]] + downloads[1..];
      if downloads[0].userId == userId then [downloads[0]] + OwnedBy(downloads[1..], userId)
      else OwnedBy(downloads[1..], userId)
  }

  /** Ordered by createdAt, non-increasing: newest first. */
  predicate NewestFirst(s: seq<Download>) {
    forall i, j :: 0 <= i < j < |s| ==> s[i].createdAt >= s[j].createdAt
  }

  /**
   * Places `d` before the first element that is not newer than it, so among
   * equal timestamps the element inserted later (earlier in the input) leads.
   */
  function InsertNewest(d: Download, s: seq<Download>): (r: seq<Download>)
    requires NewestFirst(s)
    ensures NewestFirst(r)
    ensures multiset(r) == multiset(s) + multiset{d}
    ensures |r| == |s| + 1
  {
    if s == [] || s[0].createdAt <= d.createdAt then [d] + s
    else
      var rest := InsertNewest(d, s[1..]);
      assert s == [s[0]] + s[1..];
      forall k | 0 <= k < |rest| ensures rest[k].createdAt <= s[0].createdAt {
        assert rest[k] in multiset(rest);
        if rest[k] != d {
          assert rest[k] in multiset(s[1..]);
          var l :| 0 <= l < |s[1..]| && s[1..][l] == rest[k];
          assert s[l + 1] == rest[k];
        }
      }
      [s[0]] + rest
  }

  /** `[...s].sort((a, b) => b.createdAt - a.createdAt)`, a stable sort, newest first. */
  function SortNewest(s: seq<Download>): (r: seq<Download>)
    ensures NewestFirst(r)
    ensures multiset(r) == multiset(s)
    ensures |r| == |s|
  {
    if s == [] then []
    else
      assert s == [s[0]] + s[1..];
      InsertNewest(s[0], SortNewest(s[1..]))
  }

  /** The rows the history query ranges over: one owner's when `userId` is truthy, else all. */
  function Candidates(downloads: seq<Download>, userId: Option<int>): seq<Download> {
    if TruthyNumber(userId) then OwnedBy(downloads, userId.value) else downloads
  }

  /**
   * `sorted.slice(0, 20)` after the newest-first sort: at most 20 rows drawn
   * from `c`, newest first, and no row of `c` left out is newer than any row
   * kept.
   */
  function TakeNewest(c: seq<Download>): (r: seq<Download>)
    ensures |r| == if |c| < HistoryLimit then |c| else HistoryLimit
    ensures NewestFirst(r)
    ensures multiset(r) <= multiset(c)
    ensures forall d :: d in c && d !in r ==> forall i :: 0 <= i < |r| ==> r[i].createdAt >= d.createdAt
  {
    var sorted := SortNewest(c);
    var n := if |sorted| < HistoryLimit then |sorted| else HistoryLimit;
    PrefixOfNewestFirst(sorted, n);
    forall d | d in c && d !in sorted[..n] ensures d in sorted {
      assert d in multiset(sorted);
    }
    sorted[..n]
  }

  /**
   * A prefix of a newest-first list is newest first, is a sub-multiset of the
   * list, and every element of the list beyond the prefix is no newer than any
   * element in it.
   */
  lemma PrefixOfNewestFirst(sorted: seq<Download>, n: nat)
    requires NewestFirst(sorted) && n <= |sorted|
    ensures NewestFirst(sorted[..n])
    ensures multiset(sorted[..n]) <= multiset(sorted)
    ensures forall d :: d in sorted && d !in sorted[..n] ==>
              forall i :: 0 <= i < n ==> sorted[i].createdAt >= d.createdAt
  {
    var r := sorted[..n];
    assert sorted == r + sorted[n..];
    assert multiset(sorted) == multiset(r) + multiset(sorted[n..]);
    forall d | d in sorted && d !in r ensures forall i :: 0 <= i < n ==> sorted[i].createdAt >= d.createdAt {
      var k :| 0 <= k < |sorted| && sorted[k] == d;
      assert k >= n;
    }
  }

  /**
   * `getDownloads(userId)`: at most 20 rows taken from the table, newest first;
   * when `userId` is truthy every row belongs to that user; no candidate left
   * out is newer than a row returned.
   */
  function History(downloads: seq<Download>, userId: Option<int>): (r: seq<Download>)
    ensures |r| <= HistoryLimit
    ensures |r| == if |Candidates(downloads, userId)| < HistoryLimit then |Candidates(downloads, userId)| else HistoryLimit
    ensures NewestFirst(r)
    ensures multiset(r) <= multiset(downloads)
    ensures forall i :: 0 <= i < |r| ==> r[i] in downloads
    ensures TruthyNumber(userId) ==> forall i :: 0 <= i < |r| ==> r[i].userId == userId.value
    ensures forall d :: d in Candidates(downloads, userId) && d !in r ==>
              forall i :: 0 <= i < |r| ==> r[i].createdAt >= d.createdAt
  {
    var c := Candidates(downloads, userId);
    var r := TakeNewest(c);
    assert multiset(c) <= multiset(downloads);
    forall i | 0 <= i < |r| ensures r[i] in downloads && r[i] in c {
      assert r[i] in multiset(r);
    }
    r
  }
}
