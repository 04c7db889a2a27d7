/**
 * `LocalFileStorage` (server/storage.ts): the two tables held in memory. Every
 * writer of the source loads both tables, changes them and saves them back;
 * here that load/change/save cycle is one update of the fields.
 */
module Storage {
  import opened Records
  import opened Tables

  /** The one user the database is seeded with when no database file exists. */
  const SeedAdmin: User := User(
    id := 1,
    username := "Admin",
    password := "Admin123",
    role := "admin",
    isBanned := false,
    banUntil := None,
    dailyLimit := 999999,
    usedToday := 0,
    lastUsedAt := None)

  class LocalFileStorage {
    var users: seq<User>
    var downloads: seq<Download>

    /**
     * Ids are positive and unique in both tables, and no usage counter is
     * negative. Every writer keeps this.
     */
    ghost predicate Valid()
      reads this
    {
      UsersValid(users) && UniquePositive(DownloadIds(downloads))
    }

    /** The state `loadDB` writes and returns when there is no database file. */
    constructor ()
      ensures Valid()
      ensures users == [SeedAdmin] && downloads == []
    {
      users := [SeedAdmin];
      downloads := [];
    }

    /** The state `loadDB` returns when the database file cannot be parsed. */
    constructor Unreadable()
      ensures Valid()
      ensures users == [] && downloads == []
    {
      users := [];
      downloads := [];
    }

    /** `getUser(id)`: the first stored user with the id, or nothing when there is none. */
    function GetUser(id: int): (r: Option<User>)
      reads this
      ensures r.None? <==> IndexOfId(users, id) == -1
      ensures r.Some? ==> r.value == users[IndexOfId(users, id)] && r.value.id == id
    {
      FindById(users, id)
    }

    /** `getUserByUsername(username)`: the first stored user with the name, or nothing. */
    function GetUserByUsername(username: string): (r: Option<User>)
      reads this
      ensures r.None? <==> IndexOfName(users, username) == -1
      ensures r.Some? ==> r.value == users[IndexOfName(users, username)] && r.value.username == username
    {
      FindByUsername(users, username)
    }

    /** `getUsers()`: the whole users table, in stored order. */
    function GetUsers(): (r: seq<User>)
      reads this
      ensures |r| == |users| && forall i :: 0 <= i < |r| ==> r[i] == users[i]
    {
      users
    }

    /**
     * `getDownloads(userId)`: at most 20 stored downloads, newest first, all
     * owned by `userId` when it is truthy.
     */
    function GetDownloads(userId: Option<int>): (r: seq<Download>)
      reads this
      ensures |r| <= HistoryLimit && NewestFirst(r)
      ensures multiset(r) <= multiset(downloads)
      ensures TruthyNumber(userId) ==> forall i :: 0 <= i < |r| ==> r[i].userId == userId.value
      ensures r == History(downloads, userId)
    {
      History(downloads, userId)
    }

    /** `createUser(input)`: appends the new row and returns it; downloads are untouched. */
    method CreateUser(input: NewUserInput) returns (u: User)
      requires Valid()
      modifies this
      ensures Valid()
      ensures u == NewUser(input, old(users))
      ensures users == old(users) + [u]
      ensures downloads == old(downloads)
    {
      u := NewUser(input, users);
      AllocatedIdKeepsUnique(UserIds(users));
      assert UserIds(users + [u]) == UserIds(users) + [u.id];
      users := users + [u];
    }

    /**
     * `updateUser(id, updates)`: fails with "User not found" and changes
     * nothing when no row has the id; otherwise merges the patch into the first
     * such row, in place, and returns the merged row. Neither caller can set
     * a negative usage count: the PATCH body has no such key, and analyze
     * sends the current count plus one.
     */
    method UpdateUser(id: int, updates: UserPatch) returns (r: Result<User, string>)
      requires Valid()
      requires updates.usedToday.Some? ==> updates.usedToday.value >= 0
      modifies this
      ensures Valid()
      ensures downloads == old(downloads)
      ensures IndexOfId(old(users), id) == -1 ==> r == Err("User not found") && users == old(users)
      ensures IndexOfId(old(users), id) >= 0 ==>
                var k := IndexOfId(old(users), id);
                && r == Ok(ApplyPatch(old(users)[k], updates))
                && users == old(users)[k := r.value]
    {
      var index := IndexOfId(users, id);
      if index == -1 {
        return Err("User not found");
      }
      var merged := ApplyPatch(users[index], updates);
      assert UserIds(users[index := merged]) == UserIds(users);
      users := users[index := merged];
      r := Ok(merged);
    }

    /** `deleteUser(id)`: keeps exactly the rows whose id differs, in order. */
    method DeleteUser(id: int)
      requires Valid()
      modifies this
      ensures Valid()
      ensures users == WithoutId(old(users), id)
      ensures downloads == old(downloads)
    {
      WithoutIdKeepsUnique(users, id);
      users := WithoutId(users, id);
    }

    /** `createDownload(input)`: appends the new row, stamped `now`; users are untouched. */
    method CreateDownload(input: NewDownload, now: nat) returns (d: Download)
      requires Valid()
      modifies this
      ensures Valid()
      ensures d == NewDownloadRow(input, old(downloads), now)
      ensures downloads == old(downloads) + [d]
      ensures users == old(users)
    {
      d := NewDownloadRow(input, downloads, now);
      AllocatedIdKeepsUnique(DownloadIds(downloads));
      assert DownloadIds(downloads + [d]) == DownloadIds(downloads) + [d.id];
      downloads := downloads + [d];
    }
  }

  /** The seeded state holds exactly the admin: id 1, role "admin", a 999999 quota, unused, not banned. */
  lemma SeedState(store: LocalFileStorage)
    requires store.users == [SeedAdmin] && store.downloads == []
    ensures |store.GetUsers()| == 1 && store.GetDownloads(None) == []
    ensures store.GetUser(1) == Some(SeedAdmin)
    ensures store.GetUserByUsername("Admin") == Some(SeedAdmin)
    ensures SeedAdmin.role == "admin" && SeedAdmin.dailyLimit == 999999
    ensures SeedAdmin.usedToday == 0 && !SeedAdmin.isBanned
  {
  }
}
