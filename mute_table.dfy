/**
 * The `muted_users` table as a value: at most one record per user (the key), holding
 * the expiry and the reason. A record means "muted" only while `now < until`.
 */
module MuteTable {

  datatype MuteRecord = MuteRecord(until: int, reason: string)

  type Table = map<int, MuteRecord>

  /** The user holds a record that has not yet expired (`muted_until > current_time`). */
  predicate Active(m: Table, uid: int, now: int) {
    uid in m && m[uid].until > now
  }

  /** The table after `is_user_muted` has consulted it: an expired record of `uid` is gone. */
  function AfterCheck(m: Table, uid: int, now: int): (m': Table)
    ensures uid in m' <==> Active(m, uid, now)
    ensures uid in m' ==> m'[uid] == m[uid]
    ensures forall u :: u != uid ==> (u in m' <==> u in m)
    ensures forall u :: u != uid && u in m ==> m'[u] == m[u]
    ensures m'.Keys <= m.Keys
  {
    if uid in m && !(m[uid].until > now) then m - {uid} else m
  }

  /** `INSERT ... ON CONFLICT (user_id) DO UPDATE`: the record of `uid` becomes `r`. */
  function Upsert(m: Table, uid: int, r: MuteRecord): (m': Table)
    ensures m'.Keys == m.Keys + {uid}
    ensures m'[uid] == r
    ensures forall u :: u != uid && u in m ==> m'[u] == m[u]
  {
    m[uid := r]
  }

  /** `DELETE FROM muted_users WHERE user_id = uid`. */
  function Remove(m: Table, uid: int): (m': Table)
    ensures m'.Keys == m.Keys - {uid}
    ensures forall u :: u in m' ==> m'[u] == m[u]
  {
    m - {uid}
  }

  /** Checking twice is checking once: a second `is_user_muted` finds what the first left behind. */
  lemma CheckIsIdempotent(m: Table, uid: int, now: int)
    ensures AfterCheck(AfterCheck(m, uid, now), uid, now) == AfterCheck(m, uid, now)
    ensures Active(AfterCheck(m, uid, now), uid, now) == Active(m, uid, now)
  {
  }

  /** A record that expires exactly now no longer mutes, and the check deletes it. */
  lemma ExpiresAtUntil(m: Table, uid: int, reason: string, now: int)
    ensures !Active(Upsert(m, uid, MuteRecord(now, reason)), uid, now)
    ensures uid !in AfterCheck(Upsert(m, uid, MuteRecord(now, reason)), uid, now)
  {
  }

  /** Two upserts for the same user leave only the second record. */
  lemma UpsertLastWins(m: Table, uid: int, r1: MuteRecord, r2: MuteRecord)
    ensures Upsert(Upsert(m, uid, r1), uid, r2) == Upsert(m, uid, r2)
  {
  }

  /** Removing a record that an upsert wrote restores the table without that user. */
  lemma RemoveAfterUpsert(m: Table, uid: int, r: MuteRecord)
    ensures Remove(Upsert(m, uid, r), uid) == Remove(m, uid)
  {
  }
}
