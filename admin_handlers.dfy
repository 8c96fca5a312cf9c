/**
 * The admin router's conversation flows: broadcast (payload, then the batched delivery),
 * mute (user id, duration, reason), unmute (user id) and search (user id), and the
 * recent-users listing.
 */
module AdminHandlers {
  import opened Wrappers
  import opened MuteTable
  import opened Store
  import opened Conversation
  import opened Text
  import Broadcast
  import Paging

  /** `datetime.now() + timedelta(minutes=minutes)`, in seconds. */
  function MuteEnd(now: int, minutes: int): (until: int)
    ensures minutes > 0 ==> until > now
    ensures minutes <= 0 ==> until <= now
  {
    now + minutes * 60
  }

  /**
   * `start_broadcast`: the admin now waits for the message to broadcast. The collected data
   * is kept, and a flow left pending before is overwritten, not stacked.
   */
  method StartBroadcast(fsm: Sessions, uid: int)
    requires fsm.Valid()
    modifies fsm
    ensures fsm.Valid()
    ensures fsm.sessions == old(fsm.sessions)[uid := Session(WaitingForBroadcast, old(fsm.Get(uid)).data)]
  {
    fsm.SetState(uid, WaitingForBroadcast);
  }

  /** `start_mute`: the first step of the mute flow, waiting for the user id. */
  method StartMute(fsm: Sessions, uid: int)
    requires fsm.Valid()
    modifies fsm
    ensures fsm.Valid()
    ensures fsm.sessions == old(fsm.sessions)[uid := Session(WaitingForMuteUserId, old(fsm.Get(uid)).data)]
  {
    fsm.SetState(uid, WaitingForMuteUserId);
  }

  /** `ask_user_id_for_unmute`: waiting for the id of the user to unmute. */
  method AskUnmuteId(fsm: Sessions, uid: int)
    requires fsm.Valid()
    modifies fsm
    ensures fsm.Valid()
    ensures fsm.sessions == old(fsm.sessions)[uid := Session(WaitingForUnmuteId, old(fsm.Get(uid)).data)]
  {
    fsm.SetState(uid, WaitingForUnmuteId);
  }

  /** `ask_user_id`: waiting for the id of the user to look up. */
  method AskSearchId(fsm: Sessions, uid: int)
    requires fsm.Valid()
    modifies fsm
    ensures fsm.Valid()
    ensures fsm.sessions == old(fsm.sessions)[uid := Session(WaitingForSearchId, old(fsm.Get(uid)).data)]
  {
    fsm.SetState(uid, WaitingForSearchId);
  }

  /**
   * `process_broadcast`: the state is cleared before anything is sent; then every user listed
   * by the store's `SELECT user_id FROM users` (`recipients`) gets the message, `outcomes[k]`
   * saying whether the copy to `recipients[k]` went through.
   */
  method ProcessBroadcast(db: Database, fsm: Sessions, uid: int, recipients: seq<int>, outcomes: seq<bool>)
    returns (success: nat, fail: nat, progress: seq<nat>, pauses: nat, batches: seq<seq<int>>)
    requires fsm.Valid() && fsm.Get(uid).state == WaitingForBroadcast
    requires IsEnumeration(db.users, recipients) && |outcomes| == |recipients|
    modifies fsm
    ensures fsm.Valid()
    ensures fsm.sessions == old(fsm.sessions) - {uid}
    ensures success == multiset(outcomes)[true] && fail == multiset(outcomes)[false]
    ensures success + fail == |db.users|
    ensures Broadcast.Flatten(batches) == recipients
    ensures forall k :: 0 <= k < |batches| ==> 0 < |batches[k]| <= Broadcast.BatchSize
    ensures forall k :: 0 <= k < |batches| - 1 ==> |batches[k]| == Broadcast.BatchSize
    ensures |batches| == (|db.users| + Broadcast.BatchSize - 1) / Broadcast.BatchSize
    ensures pauses == if batches == [] then 0 else |batches| - 1
    ensures progress == Broadcast.Progress(0, |db.users|)
  {
    fsm.Clear(uid);
    success, fail, progress, pauses, batches := Broadcast.RunBroadcast(recipients, outcomes);
  }

  /**
   * `get_user_id`: an integer id is stored and the flow moves on to the duration; anything
   * else leaves state and data as they were, so the admin can retry.
   */
  method GetUserId(fsm: Sessions, uid: int, text: string) returns (accepted: bool)
    requires fsm.Valid() && fsm.Get(uid).state == WaitingForMuteUserId
    modifies fsm
    ensures fsm.Valid()
    ensures accepted <==> ParseInt(Strip(text)).Some?
    ensures accepted ==> fsm.sessions == old(fsm.sessions)[uid := Session(WaitingForDuration,
              old(fsm.Get(uid)).data.(muteUserId := Some(ParseInt(Strip(text)).value)))]
    ensures !accepted ==> fsm.sessions == old(fsm.sessions)
  {
    var parsed := ParseInt(Strip(text));
    if parsed.None? {
      return false;
    }
    fsm.UpdateData(uid, MuteUserId(parsed.value));
    fsm.SetState(uid, WaitingForDuration);
    accepted := true;
  }

  /**
   * `get_duration`: an integer number of minutes (any sign) fixes `muted_until = now + minutes`
   * and the flow moves on to the reason; anything else changes nothing.
   */
  method GetDuration(fsm: Sessions, uid: int, text: string, now: int) returns (accepted: bool)
    requires fsm.Valid() && fsm.Get(uid).state == WaitingForDuration
    modifies fsm
    ensures fsm.Valid()
    ensures accepted <==> ParseInt(Strip(text)).Some?
    ensures accepted ==> fsm.sessions == old(fsm.sessions)[uid := Session(WaitingForReason,
              old(fsm.Get(uid)).data.(mutedUntil := Some(MuteEnd(now, ParseInt(Strip(text)).value))))]
    ensures !accepted ==> fsm.sessions == old(fsm.sessions)
  {
    var parsed := ParseInt(Strip(text));
    if parsed.None? {
      return false;
    }
    fsm.UpdateData(uid, MutedUntil(MuteEnd(now, parsed.value)));
    fsm.SetState(uid, WaitingForReason);
    accepted := true;
  }

  /** The confirmation `finish_mute` sends. */
  datatype MuteConfirmation = MuteConfirmation(userId: int, until: int, reason: string)

  /**
   * `finish_mute`: clears the state, then upserts the collected id and expiry with the stripped
   * message as the reason. `None` when the id is outside the `BIGINT` range or has no `users`
   * row: the statement raises, after the state was already cleared.
   */
  method FinishMute(db: Database, fsm: Sessions, uid: int, text: string)
    returns (confirmation: Option<MuteConfirmation>)
    requires db.Valid() && fsm.Valid() && fsm.Get(uid).state == WaitingForReason
    modifies db`muted, fsm
    ensures db.Valid() && fsm.Valid()
    ensures fsm.sessions == old(fsm.sessions) - {uid}
    ensures var target := old(fsm.Get(uid)).data.muteUserId.value;
            var until := old(fsm.Get(uid)).data.mutedUntil.value;
            && (IsBigint(target) && target in db.users ==>
                  && db.muted == Upsert(old(db.muted), target, MuteRecord(until, Strip(text)))
                  && confirmation == Some(MuteConfirmation(target, until, Strip(text))))
            && (!IsBigint(target) || target !in db.users ==> db.muted == old(db.muted) && confirmation == None)
  {
    var data := fsm.Get(uid).data;
    fsm.Clear(uid);
    var target := data.muteUserId.value;
    var until := data.mutedUntil.value;
    var reason := Strip(text);
    var ok := db.UpsertMute(target, until, reason);
    confirmation := if ok then Some(MuteConfirmation(target, until, reason)) else None;
  }

  /** The answers of `unmute_user`. */
  datatype UnmuteReply = Unmuted(userId: int) | WasNotMuted

  /**
   * `unmute_user`: clears the state first, then deletes the record of the given id and says
   * whether there was one. `None` when the text is not an integer (`int()` raises) or the id
   * is outside the `BIGINT` range (the delete raises); either way the state is already
   * cleared and no retry is offered.
   */
  method UnmuteUser(db: Database, fsm: Sessions, uid: int, text: string) returns (reply: Option<UnmuteReply>)
    requires db.Valid() && fsm.Valid() && fsm.Get(uid).state == WaitingForUnmuteId
    modifies db`muted, fsm
    ensures db.Valid() && fsm.Valid()
    ensures fsm.sessions == old(fsm.sessions) - {uid}
    ensures match ParseInt(Strip(text))
            case None => reply == None && db.muted == old(db.muted)
            case Some(target) =>
              if !IsBigint(target) then reply == None && db.muted == old(db.muted)
              else
                && db.muted == Remove(old(db.muted), target)
                && reply == Some(if target in old(db.muted) then Unmuted(target) else WasNotMuted)
  {
    var idText := Strip(text);
    fsm.Clear(uid);
    var parsed := ParseInt(idText);
    if parsed.None? {
      return None;
    }
    var deleted := db.DeleteMute(parsed.value);
    if deleted.None? {
      return None;
    }
    reply := Some(if deleted.value == 1 then Unmuted(parsed.value) else WasNotMuted);
  }

  /** The answers of `show_user_info`. */
  datatype SearchReply =
    | InvalidId
    | UserNotFound
    | UserInfo(userId: int, name: string, isAdmin: bool, createdAt: int, mutedUntil: Option<int>)

  /**
   * `show_user_info`: clears the state whatever the text (so an invalid id is not retried),
   * then reports the user and, if a mute record exists, its expiry, without comparing it
   * with the current time and without deleting it. `None` when the id is outside the
   * `BIGINT` range: the lookup raises and nothing is answered.
   */
  method ShowUserInfo(db: Database, fsm: Sessions, uid: int, text: string) returns (reply: Option<SearchReply>)
    requires fsm.Valid() && fsm.Get(uid).state == WaitingForSearchId
    modifies fsm
    ensures fsm.Valid()
    ensures fsm.sessions == old(fsm.sessions) - {uid}
    ensures ParseInt(Strip(text)).None? <==> reply == Some(InvalidId)
    ensures match ParseInt(Strip(text))
            case None => true
            case Some(target) =>
              if !IsBigint(target) then reply == None
              else if target !in db.users then reply == Some(UserNotFound)
              else
                && reply.Some? && reply.value.UserInfo? && reply.value.userId == target
                && reply.value.name == db.users[target].name
                && reply.value.isAdmin == db.users[target].isAdmin
                && reply.value.createdAt == db.users[target].createdAt
                && (reply.value.mutedUntil.Some? <==> target in db.muted)
                && (target in db.muted ==> reply.value.mutedUntil.value == db.muted[target].until)
  {
    fsm.Clear(uid);
    var parsed := ParseInt(Strip(text));
    if parsed.None? {
      return Some(InvalidId);
    }
    var target := parsed.value;
    if !IsBigint(target) {
      return None;
    }
    if target !in db.users {
      return Some(UserNotFound);
    }
    var row := db.users[target];
    var mutedUntil := if target in db.muted then Some(db.muted[target].until) else None;
    reply := Some(UserInfo(target, row.name, row.isAdmin, row.createdAt, mutedUntil));
  }

  /** `users` sorted as `ORDER BY created_at DESC` returns them. */
  ghost predicate NewestFirst(users: map<int, UserRow>, ids: seq<int>) {
    && IsEnumeration(users, ids)
    && forall j, k :: 0 <= j < k < |ids| ==> users[ids[j]].createdAt >= users[ids[k]].createdAt
  }

  /**
   * `show_recent_users` for page `page` of the store's newest-first listing `newest`: the
   * users shown and whether the "previous" and "next" buttons are offered.
   */
  method ShowRecentUsers(db: Database, page: int, newest: seq<int>) returns (shown: seq<int>, prev: bool, next: bool)
    requires page >= 1 && NewestFirst(db.users, newest)
    ensures shown == Paging.PageRows(newest, page)
    ensures prev <==> page > 1
    ensures next <==> page < Paging.TotalPages(|db.users|)
    ensures next <==> Paging.Offset(page + 1) < |db.users|
    ensures shown != [] <==> page <= Paging.TotalPages(|db.users|)
  {
    var total := |db.users|;
    var totalPages := Paging.TotalPages(total);
    shown := Paging.PageRows(newest, page);
    prev := Paging.HasPrev(page);
    next := Paging.HasNext(page, total);
    Paging.NextIffMoreUsers(page, total);
    Paging.PageNonEmptyIff(newest, page);
  }
}
