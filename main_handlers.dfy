/**
 * The two user-facing handlers: `/start` (with an invitation token: mute gate, token
 * lookup, entering the question state; without one: the personal link) and the handler
 * for the message sent while waiting for a question (relay to the link's owner).
 */
module MainHandlers {
  import opened Wrappers
  import opened MuteTable
  import opened Store
  import opened Conversation

  /** The answers of `start_handler`. */
  datatype StartReply =
    | SenderMuted(until: int)       // the mute gate's refusal, with the expiry
    | AskForQuestion                // the link resolved: "write your message here"
    | InvalidLink                   // no user owns the token
    | PersonalLink(token: string)   // the sender's own link `?start=<token>`

  /** The message kinds the question handler distinguishes, in the order it tests them. */
  datatype Payload =
    | Text(text: string)
    | Photo(fileId: string)
    | Video(fileId: string)
    | Voice(fileId: string)
    | Document(fileId: string)
    | Unsupported

  /** `message.text` is tested for truth, so an empty text counts as no text. */
  predicate Relayable(p: Payload) {
    match p
    case Text(t) => t != ""
    case Unsupported => false
    case _ => true
  }

  /**
   * What the transport does with the relayed message: the outcome oracle. `OtherError` is any
   * Telegram or network error besides the two the handler catches (a flood wait, a timeout).
   */
  datatype Delivery = Delivered | Forbidden | BadRequest(detail: string) | OtherError

  /** What the owner of the link receives: the content and a reply button to the sender's own link. */
  datatype Relay = Relay(target: int, payload: Payload, replyToken: string)

  /** The answers of `handle_question` to its sender. */
  datatype QuestionReply =
    | Sent                      // "your message was sent"
    | RecipientBlocked          // `TelegramForbiddenError`
    | Failed(detail: string)    // `TelegramBadRequest`, with its message
    | UnsupportedType           // none of the handled kinds

  /** The answer for a delivery outcome; `None` for an error the handler does not catch. */
  function ReplyFor(outcome: Delivery): (reply: Option<QuestionReply>)
    ensures reply.None? <==> outcome.OtherError?
  {
    match outcome
    case Delivered => Some(Sent)
    case Forbidden => Some(RecipientBlocked)
    case BadRequest(d) => Some(Failed(d))
    case OtherError => None
  }

  /**
   * `start_handler`. `args` is `command.args` ("" when absent, which Python treats as false);
   * `draws` is the randomness for a new token. `reply` is `None` when the store refused the
   * new user's row and the handler raised before answering.
   */
  method StartHandler(db: Database, fsm: Sessions, uid: int, username: Option<string>, name: string,
                      args: string, draws: seq<nat>, now: int)
    returns (reply: Option<StartReply>)
    requires db.Valid() && fsm.Valid() && ValidDraws(draws)
    modifies db, fsm
    ensures db.Valid() && fsm.Valid()
    ensures db.log == old(db.log)
    // with a token: the mute gate first; a muted sender changes no state and looks nothing up
    ensures args != "" ==> db.users == old(db.users)
    ensures args != "" && Active(old(db.muted), uid, now) ==>
              && reply == Some(SenderMuted(old(db.muted)[uid].until))
              && db.muted == old(db.muted)
              && fsm.sessions == old(fsm.sessions)
    ensures args != "" && !Active(old(db.muted), uid, now) ==>
              && db.muted == AfterCheck(old(db.muted), uid, now)
              && (TokenTaken(old(db.users), args) ==>
                    && reply == Some(AskForQuestion)
                    && fsm.sessions == old(fsm.sessions)[uid := Session(WaitingForQuestion,
                         old(fsm.Get(uid)).data.(targetId := Some(Owner(old(db.users), args))))])
              && (!TokenTaken(old(db.users), args) ==>
                    reply == Some(InvalidLink) && fsm.sessions == old(fsm.sessions))
    // without a token: the sender's own link, creating the user row if needed
    ensures args == "" ==>
              && db.muted == old(db.muted)
              && fsm.sessions == old(fsm.sessions)
              && db.users == WithIdentity(old(db.users), uid, username, name, draws, now)
              && reply == (match IdentityToken(old(db.users), uid, draws)
                           case Some(t) => Some(PersonalLink(t))
                           case None => None)
  {
    if args != "" {
      var isMuted, mutedUntil := db.IsUserMuted(uid, now);
      if isMuted {
        return Some(SenderMuted(mutedUntil.value));
      }
      var target := db.GetUserByToken(args);
      if target.Some? {
        fsm.SetState(uid, WaitingForQuestion);
        fsm.UpdateData(uid, TargetId(target.value));
        reply := Some(AskForQuestion);
      } else {
        reply := Some(InvalidLink);
      }
    } else {
      var token := db.EnsureIdentity(uid, username, name, draws, now);
      if token.None? {
        return None;
      }
      reply := Some(PersonalLink(token.value));
    }
  }

  /**
   * `handle_question`, run only while the sender waits for a question. `outcome` is what the
   * transport does with the relay (and, for media, with the copy to the log channel).
   * `reply` is `None` when the store refused the sender's new row and the handler raised
   * before relaying; `relay` is the message sent to the target, if one was attempted.
   */
  method HandleQuestion(db: Database, fsm: Sessions, uid: int, username: Option<string>, name: string,
                        payload: Payload, draws: seq<nat>, now: int, outcome: Delivery)
    returns (reply: Option<QuestionReply>, relay: Option<Relay>)
    requires db.Valid() && fsm.Valid() && ValidDraws(draws)
    requires fsm.Get(uid).state == WaitingForQuestion
    modifies db, fsm
    ensures db.Valid() && fsm.Valid()
    ensures db.muted == old(db.muted)
    ensures db.users == WithIdentity(old(db.users), uid, username, name, draws, now)
    ensures var sender := IdentityToken(old(db.users), uid, draws);
            var target := old(fsm.Get(uid)).data.targetId.value;
            && (sender.None? ==>
                  reply == None && relay == None && fsm.sessions == old(fsm.sessions) && db.log == old(db.log))
            && (sender.Some? && !Relayable(payload) ==>
                  && reply == Some(UnsupportedType) && relay == None
                  && fsm.sessions == old(fsm.sessions) && db.log == old(db.log))
            && (sender.Some? && Relayable(payload) ==>
                  && relay == Some(Relay(target, payload, sender.value))
                  && reply == ReplyFor(outcome)
                  && fsm.sessions == (if outcome.OtherError? then old(fsm.sessions) else old(fsm.sessions) - {uid})
                  && db.log == if payload.Text? && outcome == Delivered
                               then old(db.log) + [LogEntry(uid, target, payload.text, now)]
                               else old(db.log))
  {
    var data := fsm.Get(uid).data;
    var target := data.targetId.value;
    var senderToken := db.EnsureIdentity(uid, username, name, draws, now);
    if senderToken.None? {
      return None, None;
    }
    if !Relayable(payload) {
      return Some(UnsupportedType), None;
    }
    relay := Some(Relay(target, payload, senderToken.value));
    if payload.Text? && outcome == Delivered {
      db.LogMessage(uid, target, payload.text, now);
    }
    reply := ReplyFor(outcome);
    if outcome.OtherError? {
      // the error propagates out of the handler before `state.clear()`
      return;
    }
    fsm.Clear(uid);
  }
}
