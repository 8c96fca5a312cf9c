/**
 * The relational store the handlers share through the connection pool: the `users`
 * table (by `user_id`), the `muted_users` table and the append-only `message_log`.
 */
module Store {
  import opened Wrappers
  import opened MuteTable
  import Tokens

  /** A `users` row; `is_admin` defaults to false on insert. */
  datatype UserRow = UserRow(username: Option<string>, name: string, token: string, isAdmin: bool, createdAt: int)

  /** A `message_log` row. */
  datatype LogEntry = LogEntry(sender: int, receiver: int, text: string, sentAt: int)

  const MinBigint: int := -0x8000_0000_0000_0000
  const MaxBigint: int := 0x7FFF_FFFF_FFFF_FFFF

  /**
   * The integers a `BIGINT` column accepts; asyncpg raises for a parameter outside this
   * range before the query reaches the table.
   */
  predicate IsBigint(x: int) {
    MinBigint <= x <= MaxBigint
  }

  /** The `UNIQUE` constraint on `users.token`. */
  ghost predicate TokensUnique(users: map<int, UserRow>) {
    forall a, b :: a in users && b in users && a != b ==> users[a].token != users[b].token
  }

  predicate TokenTaken(users: map<int, UserRow>, token: string) {
    exists u :: u in users && users[u].token == token
  }

  /** The owner of a token that is taken (unique while `TokensUnique` holds). */
  ghost function Owner(users: map<int, UserRow>, token: string): (u: int)
    requires TokenTaken(users, token)
    ensures u in users && users[u].token == token
  {
    var u :| u in users && users[u].token == token; u
  }

  /**
   * `ids` lists every user exactly once: the rows of `SELECT user_id FROM users`, in the
   * order the store returns them.
   */
  ghost predicate IsEnumeration(users: map<int, UserRow>, ids: seq<int>) {
    && |ids| == |users|
    && (forall k :: 0 <= k < |ids| ==> ids[k] in users)
    && (forall u :: u in users ==> u in ids)
    && (forall j, k :: 0 <= j < k < |ids| ==> ids[j] != ids[k])
  }

  predicate ValidDraws(draws: seq<nat>) {
    |draws| == Tokens.DefaultTokenLength && forall k :: 0 <= k < |draws| ==> draws[k] < |Tokens.Alphabet|
  }

  /**
   * The token the ensure-identity step ends with: the stored one, or a freshly generated one;
   * `None` when the fresh token is already taken and the store refuses the insert.
   */
  function IdentityToken(users: map<int, UserRow>, uid: int, draws: seq<nat>): Option<string>
    requires ValidDraws(draws)
  {
    if uid in users then Some(users[uid].token)
    else
      var t := Tokens.GenerateToken(Tokens.DefaultTokenLength, draws);
      if TokenTaken(users, t) then None else Some(t)
  }

  /** The `users` table after the ensure-identity step. */
  function WithIdentity(users: map<int, UserRow>, uid: int, username: Option<string>, name: string,
                        draws: seq<nat>, now: int): (r: map<int, UserRow>)
    requires ValidDraws(draws)
    ensures uid in r <==> IdentityToken(users, uid, draws).Some?
    ensures forall u :: u != uid ==> (u in r <==> u in users)
    ensures forall u :: u in users ==> r[u] == users[u]
    ensures uid in r ==> r[uid].token == IdentityToken(users, uid, draws).value
    ensures uid in r && uid !in users ==> r[uid] == UserRow(username, name, r[uid].token, false, now)
    ensures uid in r && uid !in users ==> Tokens.IsToken(r[uid].token)
    ensures TokensUnique(users) ==> TokensUnique(r)
  {
    if uid in users then users
    else
      var t := Tokens.GenerateToken(Tokens.DefaultTokenLength, draws);
      if TokenTaken(users, t) then users else users[uid := UserRow(username, name, t, false, now)]
  }

  /** Ensure-identity is idempotent: a second run, whatever it draws, changes nothing and yields the same token. */
  lemma IdentityIsIdempotent(users: map<int, UserRow>, uid: int, username: Option<string>, name: string,
                             d1: seq<nat>, now1: int, username2: Option<string>, name2: string, d2: seq<nat>, now2: int)
    requires ValidDraws(d1) && ValidDraws(d2)
    requires IdentityToken(users, uid, d1).Some?
    ensures var once := WithIdentity(users, uid, username, name, d1, now1);
            && WithIdentity(once, uid, username2, name2, d2, now2) == once
            && IdentityToken(once, uid, d2) == IdentityToken(users, uid, d1)
  {
  }

  /** Ensure-identity never grants admin rights, nor takes them away. */
  lemma IdentityKeepsAdmins(users: map<int, UserRow>, uid: int, username: Option<string>, name: string,
                            draws: seq<nat>, now: int, u: int)
    requires ValidDraws(draws)
    ensures var r := WithIdentity(users, uid, username, name, draws, now);
            (u in r && r[u].isAdmin) <==> (u in users && users[u].isAdmin)
  {
  }

  class Database {
    var users: map<int, UserRow>
    var muted: Table
    var log: seq<LogEntry>

    /** The store's constraints: unique tokens, and mute records only for known users (the foreign key). */
    ghost predicate Valid()
      reads this
    {
      TokensUnique(users) && muted.Keys <= users.Keys
    }

    constructor ()
      ensures Valid() && users == map[] && muted == map[] && log == []
    {
      users, muted, log := map[], map[], [];
    }

    /** `is_user_admin`: true iff the user has a row and its `is_admin` is set. */
    method IsUserAdmin(uid: int) returns (r: bool)
      ensures r <==> uid in users && users[uid].isAdmin
    {
      r := uid in users && users[uid].isAdmin;
    }

    /** `get_user_by_token`: the owner of `token`, or `None` when no row carries it. */
    method GetUserByToken(token: string) returns (owner: Option<int>)
      requires Valid()
      ensures owner.Some? <==> TokenTaken(users, token)
      ensures forall u :: u in users && users[u].token == token ==> owner == Some(u)
    {
      if TokenTaken(users, token) {
        var u :| u in users && users[u].token == token;
        owner := Some(u);
      } else {
        owner := None;
      }
    }

    /**
     * `is_user_muted`: `(true, until)` while the record is active; otherwise `(false, None)`,
     * and an expired record is deleted on the way.
     */
    method IsUserMuted(uid: int, now: int) returns (isMuted: bool, until: Option<int>)
      requires Valid()
      modifies this`muted
      ensures Valid()
      ensures isMuted == Active(old(muted), uid, now)
      ensures until == if isMuted then Some(old(muted)[uid].until) else None
      ensures muted == AfterCheck(old(muted), uid, now)
    {
      if uid in muted {
        var mutedUntil := muted[uid].until;
        if mutedUntil > now {
          return true, Some(mutedUntil);
        } else {
          muted := muted - {uid};
        }
      }
      return false, None;
    }

    /** `log_message`: append one row to `message_log`. */
    method LogMessage(sender: int, receiver: int, text: string, now: int)
      modifies this`log
      ensures log == old(log) + [LogEntry(sender, receiver, text, now)]
    {
      log := log + [LogEntry(sender, receiver, text, now)];
    }

    /**
     * The ensure-identity step of `/start` and of the question handler: return the stored token,
     * or insert a row with a freshly generated one; `None` when the insert violates `UNIQUE`.
     */
    method EnsureIdentity(uid: int, username: Option<string>, name: string, draws: seq<nat>, now: int)
      returns (token: Option<string>)
      requires Valid() && ValidDraws(draws)
      modifies this`users
      ensures Valid()
      ensures token == IdentityToken(old(users), uid, draws)
      ensures users == WithIdentity(old(users), uid, username, name, draws, now)
    {
      if uid in users {
        token := Some(users[uid].token);
      } else {
        var t := Tokens.GenerateToken(Tokens.DefaultTokenLength, draws);
        if TokenTaken(users, t) {
          token := None;
        } else {
          users := users[uid := UserRow(username, name, t, false, now)];
          token := Some(t);
        }
      }
    }

    /**
     * The mute upsert of `finish_mute`; `ok` is false when the statement raises: the id is
     * outside the `BIGINT` range, or it has no `users` row and the foreign key refuses it.
     */
    method UpsertMute(uid: int, until: int, reason: string) returns (ok: bool)
      requires Valid()
      modifies this`muted
      ensures Valid()
      ensures ok <==> IsBigint(uid) && uid in users
      ensures muted == if ok then Upsert(old(muted), uid, MuteRecord(until, reason)) else old(muted)
    {
      ok := IsBigint(uid) && uid in users;
      if ok {
        muted := muted[uid := MuteRecord(until, reason)];
      }
    }

    /**
     * The delete of `unmute_user`; `deleted` is the row count of the `DELETE n` status, and
     * `None` when the id is outside the `BIGINT` range and the statement raises.
     */
    method DeleteMute(uid: int) returns (deleted: Option<nat>)
      requires Valid()
      modifies this`muted
      ensures Valid()
      ensures deleted.None? <==> !IsBigint(uid)
      ensures deleted.Some? ==> deleted.value == if uid in old(muted) then 1 else 0
      ensures muted == if deleted.None? then old(muted) else Remove(old(muted), uid)
    {
      if !IsBigint(uid) {
        return None;
      }
      deleted := Some(if uid in muted then 1 else 0);
      muted := muted - {uid};
    }
  }
}
