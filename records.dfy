/**
 * The records the downloader keeps: users, download records and the formats
 * a download offers, plus the partial objects that create and update them.
 * JavaScript values that may be `undefined` or `null` are `Option`s here.
 */
module Records {

  datatype Option<+T> = None | Some(value: T)

  datatype Result<+T, +E> = Ok(value: T) | Err(error: E)

  /** JavaScript truthiness of an optional string: absent and "" are falsy. */
  predicate TruthyText(o: Option<string>) {
    o.Some? && o.value != ""
  }

  /** JavaScript truthiness of an optional number: absent and 0 are falsy. */
  predicate TruthyNumber(o: Option<int>) {
    o.Some? && o.value != 0
  }

  /** `o || fallback` for an optional string. */
  function TextOr(o: Option<string>, fallback: string): string {
    if TruthyText(o) then o.value else fallback
  }

  /** `o || fallback` for an optional number. */
  function NumberOr(o: Option<int>, fallback: int): int {
    if TruthyNumber(o) then o.value else fallback
  }

  /** A row of the `users` table. Timestamps are milliseconds since the epoch. */
  datatype User = User(
    id: int,
    username: string,
    password: string,
    role: string,
    isBanned: bool,
    banUntil: Option<string>,
    dailyLimit: int,
    usedToday: int,
    lastUsedAt: Option<nat>)

  /** One downloadable format as stored with a download record (`formatLabel` is the `label` key). */
  datatype Format = Format(url: string, ext: Option<string>, quality: string, formatLabel: string)

  /** A row of the `downloads` table. */
  datatype Download = Download(
    id: int,
    userId: int,
    originalUrl: string,
    title: string,
    thumbnail: string,
    formats: seq<Format>,
    createdAt: nat)

  /** The object handed to `createUser`: the fields of the insert schema. */
  datatype NewUserInput = NewUserInput(
    username: string,
    password: string,
    role: Option<string>,
    dailyLimit: Option<int>)

  /** The object handed to `createDownload`: everything but id and createdAt. */
  datatype NewDownload = NewDownload(
    userId: int,
    originalUrl: string,
    title: string,
    thumbnail: string,
    formats: seq<Format>)

  /**
   * The `updates` object handed to `updateUser`. Its callers send either the
   * admin PATCH body (isBanned, banUntil, dailyLimit) or the analyze usage
   * bump (usedToday, lastUsedAt); a field is `Some` exactly when its key is
   * present, and a present key overrides the stored value.
   */
  datatype UserPatch = UserPatch(
    isBanned: Option<bool>,
    banUntil: Option<string>,
    dailyLimit: Option<int>,
    usedToday: Option<int>,
    lastUsedAt: Option<nat>)
}
