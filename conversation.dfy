/**
 * The dispatcher's per-user FSM storage: each user has at most one active state and a
 * dictionary of collected data. `set_state` keeps the data, `update_data` merges one key,
 * and `clear` drops both.
 */
module Conversation {
  import opened Wrappers

  /**
   * `QuestionStates`, `MuteState`, `BroadcastState` and `SearchUserState` together;
   * `Idle` is the cleared state (`None`).
   */
  datatype State =
    | Idle
    | WaitingForQuestion
    | WaitingForMuteUserId
    | WaitingForDuration
    | WaitingForReason
    | WaitingForUnmuteId
    | WaitingForBroadcast
    | WaitingForSearchId

  /** The keys the handlers store with `update_data`: `target_id`, `user_id` and `muted_until`. */
  datatype Data = Data(targetId: Option<int>, muteUserId: Option<int>, mutedUntil: Option<int>)
  {
    /** `update_data(key=value)` for one key; the other keys are kept. */
    function With(f: Field): Data {
      match f
      case TargetId(v) => this.(targetId := Some(v))
      case MuteUserId(v) => this.(muteUserId := Some(v))
      case MutedUntil(v) => this.(mutedUntil := Some(v))
    }
  }

  datatype Field = TargetId(v: int) | MuteUserId(v: int) | MutedUntil(v: int)

  const NoData: Data := Data(None, None, None)

  datatype Session = Session(state: State, data: Data)

  /** What a user without stored FSM entries has: no state, no data. */
  const Cleared: Session := Session(Idle, NoData)

  /**
   * Every state that a handler reads data in holds that data: the question handler's
   * `target_id`, and `finish_mute`'s `user_id` and `muted_until`.
   */
  ghost predicate WellFormed(s: Session) {
    && (s.state == WaitingForQuestion ==> s.data.targetId.Some?)
    && (s.state == WaitingForDuration ==> s.data.muteUserId.Some?)
    && (s.state == WaitingForReason ==> s.data.muteUserId.Some? && s.data.mutedUntil.Some?)
  }

  class Sessions {
    var sessions: map<int, Session>

    ghost predicate Valid()
      reads this
    {
      forall u :: u in sessions ==> WellFormed(sessions[u])
    }

    constructor ()
      ensures Valid() && sessions == map[]
    {
      sessions := map[];
    }

    /** The state and data of `uid` (`get_state` and `get_data`). */
    function Get(uid: int): (s: Session)
      reads this
      ensures uid !in sessions ==> s == Cleared
    {
      if uid in sessions then sessions[uid] else Cleared
    }

    /** `set_state`: overwrite the state of `uid`, keeping its data. */
    method SetState(uid: int, st: State)
      modifies this
      ensures sessions == old(sessions)[uid := Session(st, old(Get(uid)).data)]
    {
      sessions := sessions[uid := Session(st, Get(uid).data)];
    }

    /** `update_data`: merge one key into the data of `uid`, keeping its state. */
    method UpdateData(uid: int, f: Field)
      modifies this
      ensures sessions == old(sessions)[uid := Session(old(Get(uid)).state, old(Get(uid)).data.With(f))]
    {
      var s := Get(uid);
      sessions := sessions[uid := Session(s.state, s.data.With(f))];
    }

    /** `clear`: drop the state and the data of `uid`. */
    method Clear(uid: int)
      modifies this
      ensures sessions == old(sessions) - {uid}
      ensures Get(uid) == Cleared
    {
      sessions := sessions - {uid};
    }
  }
}
