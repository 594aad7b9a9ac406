/** The chat-session handlers: post a message, create a chat, close a chat,
    heartbeats and the sweep that closes chats whose heartbeat stopped.
    The database is the `chat` and `message` collections, the heartbeat
    table is the module-level map from session chat id to the time of the
    last heartbeat, and the caller's session is a record passed in and
    returned. The clock is the integer `now`, in milliseconds. */
module AppController {
  import opened Common
  import opened ChatModel
  import opened Sessions
  import opened ChatDb

  /** Five minutes, in milliseconds. */
  const HeartbeatTimeout: int := 5 * 60 * 1000

  /** The consent value that makes closing a chat delete it. */
  const NoConsent: string := "false"

  /** What the chatbot's `/reply` endpoint gave back: nothing (the request
      failed) or a body whose `Reply` field may be missing. */
  datatype ReplyCall = Unreachable | Replied(reply: Option<string>)

  /** The outcome of the reCAPTCHA verification request. */
  datatype Verification = RequestFailed | Verified(success: bool)

  /** The state the chat handlers change. Heartbeat keys are optional
      because a heartbeat from a session without a chat is recorded under
      `undefined`. */
  datatype AppState = AppState(
    chats: map<string, Chat>,
    messages: seq<Message>,
    heartbeat: map<Option<string>, int>)

  /** A chat that `setChatNonActive` will close: it exists and is ACTIVE. */
  predicate Closable(chats: map<string, Chat>, key: Option<string>) {
    key.Some? && key.value in chats && chats[key.value].status == Active
  }

  /** `setChatNonActive(chatId, consent)`: a missing or already closed chat
      gives null and changes nothing; otherwise the chat becomes NONACTIVE,
      its heartbeat entry goes, and only a consent of exactly 'false' also
      deletes the chat and its messages. */
  function Close(s: AppState, key: Option<string>, consent: Option<string>, now: int): (r: (AppState, Option<Chat>))
    ensures r.1.None? <==> !Closable(s.chats, key)
    ensures r.1.None? ==> r.0 == s
    ensures r.1.Some? ==> r.1.value == Deactivated(s.chats[key.value], now) && r.0.heartbeat == s.heartbeat - {key}
    ensures r.1.Some? && consent == Some(NoConsent) ==>
              r.0.chats == s.chats - {key.value} && r.0.messages == DropMessagesOf(s.messages, {key.value})
    ensures r.1.Some? && consent != Some(NoConsent) ==>
              r.0.chats == s.chats[key.value := r.1.value] && r.0.messages == s.messages
  {
    if !Closable(s.chats, key) then (s, None)
    else
      var id := key.value;
      var closed := Deactivated(s.chats[id], now);
      var hb := s.heartbeat - {key};
      if consent == Some(NoConsent) then
        (AppState(s.chats - {id}, DropMessagesOf(s.messages, {id}), hb), Some(closed))
      else
        (AppState(s.chats[id := closed], s.messages, hb), Some(closed))
  }

  /** Closing a chat touches no other chat, no other chat's messages and no
      other heartbeat entry. */
  lemma CloseIsLocal(s: AppState, key: Option<string>, consent: Option<string>, now: int, other: string)
    requires key != Some(other)
    ensures other in Close(s, key, consent, now).0.chats <==> other in s.chats
    ensures other in s.chats ==> Close(s, key, consent, now).0.chats[other] == s.chats[other]
    ensures forall m: Message :: m.chatId == other ==> (m in Close(s, key, consent, now).0.messages <==> m in s.messages)
    ensures Some(other) in Close(s, key, consent, now).0.heartbeat <==> Some(other) in s.heartbeat
  {
  }

  /** A closed chat is never reopened: no status goes from NONACTIVE back to
      ACTIVE. */
  ghost predicate NoReopening(before: map<string, Chat>, after: map<string, Chat>) {
    forall id :: id in before && id in after && before[id].status == NonActive ==>
      after[id].status == NonActive
  }

  lemma CloseNeverReopens(s: AppState, key: Option<string>, consent: Option<string>, now: int)
    ensures NoReopening(s.chats, Close(s, key, consent, now).0.chats)
  {
  }

  /** The guard chain of `postMsg`: 400 without a session chat, 404 when the
      chat is gone, 400 when it is not ACTIVE; 0 lets the message through. */
  function PostMsgGuard(chatId: Option<string>, chats: map<string, Chat>): (code: int)
    ensures code == 0 <==> Truthy(chatId) && Closable(chats, chatId)
    ensures code == 404 <==> Truthy(chatId) && chatId.value !in chats
    ensures code != 0 ==> code == 400 || code == 404
  {
    if !Truthy(chatId) then 400
    else if chatId.value !in chats then 404
    else if chats[chatId.value].status != Active then 400
    else 0
  }

  /** A chat just created by `createChat` is ACTIVE, so `postMsg` accepts
      messages for it and `setChatNonActive` can close it. */
  lemma NewChatAcceptsMessages(chats: map<string, Chat>, id: string, now: int)
    requires id != ""
    ensures Closable(chats[id := NewChat(Active, now)], Some(id))
    ensures PostMsgGuard(Some(id), chats[id := NewChat(Active, now)]) == 0
  {
  }

  /** The consent stored by `createChat`: the one sent, or 'false'. */
  function ConsentOrDefault(consent: Option<string>): (c: string)
    ensures c != ""
    ensures Truthy(consent) ==> c == consent.value
    ensures !Truthy(consent) ==> c == NoConsent
  {
    if Truthy(consent) then consent.value else NoConsent
  }

  /** The heartbeat entries the sweep closes at `now`: older than the
      timeout (strictly) and belonging to an ACTIVE chat. */
  function Swept(s: AppState, now: int): set<Option<string>> {
    set k | k in s.heartbeat && now - s.heartbeat[k] > HeartbeatTimeout && Closable(s.chats, k)
  }

  /** The state after one sweep at `now`: every swept chat is NONACTIVE and
      loses its heartbeat entry; nothing is deleted, because the sweep passes
      the consent 'true'. */
  function SweepResult(s: AppState, now: int): (r: AppState)
    ensures r.messages == s.messages && r.chats.Keys == s.chats.Keys
    ensures NoReopening(s.chats, r.chats)
  {
    var gone := Swept(s, now);
    AppState(
      map id | id in s.chats :: if Some(id) in gone then Deactivated(s.chats[id], now) else s.chats[id],
      s.messages,
      s.heartbeat - gone)
  }

  /** A sweep closes exactly the ACTIVE chats whose heartbeat is more than
      five minutes old: afterwards a chat is NONACTIVE exactly when it was
      already, or when its heartbeat was stale, and a chat with a fresh
      heartbeat keeps both its record and its entry. */
  lemma SweepClosesExactly(s: AppState, now: int, id: string)
    requires id in s.chats
    ensures SweepResult(s, now).chats[id].status == NonActive <==>
              || s.chats[id].status == NonActive
              || (Some(id) in s.heartbeat && now - s.heartbeat[Some(id)] > HeartbeatTimeout)
    ensures Some(id) in s.heartbeat && now - s.heartbeat[Some(id)] <= HeartbeatTimeout ==>
              SweepResult(s, now).chats[id] == s.chats[id] && Some(id) in SweepResult(s, now).heartbeat
  {
  }

  /** A stale entry whose chat is already closed, deleted or missing is not
      removed: only a successful close deletes a heartbeat entry. */
  lemma SweepKeepsEntriesOfClosedChats(s: AppState, now: int, key: Option<string>)
    requires key in s.heartbeat && !Closable(s.chats, key)
    ensures key in SweepResult(s, now).heartbeat
    ensures SweepResult(s, now).heartbeat[key] == s.heartbeat[key]
  {
  }

  class ChatApp {
    const db: ChatStore
    var lastHeartbeat: map<Option<string>, int>

    function State(): AppState
      reads this, db
    {
      AppState(db.chats, db.messages, lastHeartbeat)
    }

    constructor (store: ChatStore)
      ensures db == store && lastHeartbeat == map[]
    {
      db := store;
      lastHeartbeat := map[];
    }

    /** `setChatNonActive`. */
    method SetChatNonActive(key: Option<string>, consent: Option<string>, now: int) returns (updated: Option<Chat>)
      modifies this, db
      ensures (State(), updated) == Close(old(State()), key, consent, now)
    {
      if key.None? || key.value !in db.chats {
        return None;
      }
      var id := key.value;
      var chat := db.chats[id];
      if chat.status != Active {
        return None;
      }
      var closed := Deactivated(chat, now);
      db.chats := db.chats[id := closed];
      lastHeartbeat := lastHeartbeat - {key};
      if consent == Some(NoConsent) {
        db.messages := DropMessagesOf(db.messages, {id});
        db.chats := db.chats - {id};
        assert db.chats == old(db.chats) - {id};
      }
      return Some(closed);
    }

    /** POST /send-msg: after the guards, the user's message and then the
        chatbot's reply are stored under the session chat. The two saves run
        one after the other, so each gets its own clock reading: `now` for
        the user's message, `replyNow` for the reply. */
    method PostMsg(session: Session, msg: Option<string>, attachment: Option<string>,
                   reply: ReplyCall, now: int, replyNow: int) returns (code: int)
      modifies db
      ensures db.chats == old(db.chats)
      ensures PostMsgGuard(session.chatId, old(db.chats)) != 0 ==>
                code == PostMsgGuard(session.chatId, old(db.chats)) && db.messages == old(db.messages)
      ensures PostMsgGuard(session.chatId, old(db.chats)) == 0 && reply.Unreachable? ==>
                code == 500 && db.messages == old(db.messages)
      ensures PostMsgGuard(session.chatId, old(db.chats)) == 0 && reply.Replied? ==>
                && code == 201
                && db.messages == old(db.messages) + [
                     Message(session.chatId.value, msg, attachment, User, now, now),
                     Message(session.chatId.value, reply.reply, None, Self, replyNow, replyNow)]
    {
      if !Truthy(session.chatId) {
        return 400;
      }
      var id := session.chatId.value;
      if id !in db.chats {
        return 404;
      }
      if db.chats[id].status != Active {
        return 400;
      }
      var newMessage := Message(id, msg, attachment, User, now, now);
      if reply.Unreachable? {
        return 500;
      }
      var newReply := Message(id, reply.reply, None, Self, replyNow, replyNow);
      db.messages := db.messages + [newMessage];
      db.messages := db.messages + [newReply];
      return 201;
    }

    /** POST /create-chat: the captcha checks, then the previous session
        chat is closed with the previous consent, and a new ACTIVE chat
        becomes the session chat. */
    method CreateChat(session: Session, captchaToken: Option<string>, secretKey: Option<string>,
                      verification: Verification, consent: Option<string>, newId: string, now: int)
      returns (code: int, session': Session)
      requires newId != "" && newId !in db.chats
      requires forall m :: m in db.messages ==> m.chatId != newId
      modifies this, db
      ensures !Truthy(captchaToken) ==> code == 400 && session' == session && State() == old(State())
      ensures Truthy(captchaToken) && !Truthy(secretKey) ==>
                code == 500 && session' == session && State() == old(State())
      ensures Truthy(captchaToken) && Truthy(secretKey) && verification.RequestFailed? ==>
                code == 500 && session' == session && State() == old(State())
      ensures Truthy(captchaToken) && Truthy(secretKey) && verification == Verified(false) ==>
                code == 401 && session' == session && State() == old(State())
      ensures Truthy(captchaToken) && Truthy(secretKey) && verification == Verified(true) ==>
                var before := if Truthy(session.chatId)
                              then Close(old(State()), session.chatId, session.consent, now).0
                              else old(State());
                && code == 201
                && session' == session.(chatId := Some(newId), consent := Some(ConsentOrDefault(consent)))
                && State() == before.(chats := before.chats[newId := NewChat(Active, now)])
    {
      session' := session;
      if !Truthy(captchaToken) {
        return 400, session';
      }
      if !Truthy(secretKey) {
        return 500, session';
      }
      if verification.RequestFailed? {
        return 500, session';
      }
      if !verification.success {
        return 401, session';
      }
      if Truthy(session'.chatId) {
        var _ := SetChatNonActive(session'.chatId, session'.consent, now);
        session' := session'.(chatId := None, consent := None);
      }
      db.chats := db.chats[newId := NewChat(Active, now)];
      session' := session'.(chatId := Some(newId), consent := Some(ConsentOrDefault(consent)));
      code := 201;
    }

    /** GET /nonactive: close the session chat; only success clears the
        session chat id, and the consent stays. */
    method NonactiveChat(session: Session, now: int) returns (code: int, session': Session)
      modifies this, db
      ensures !Truthy(session.chatId) ==> code == 400 && session' == session && State() == old(State())
      ensures Truthy(session.chatId) ==> State() == Close(old(State()), session.chatId, session.consent, now).0
      ensures Truthy(session.chatId) && !Closable(old(db.chats), session.chatId) ==>
                code == 404 && session' == session
      ensures Truthy(session.chatId) && Closable(old(db.chats), session.chatId) ==>
                code == 200 && session' == session.(chatId := None)
    {
      if !Truthy(session.chatId) {
        return 400, session;
      }
      var updated := SetChatNonActive(session.chatId, session.consent, now);
      if updated.None? {
        return 404, session;
      }
      return 200, session.(chatId := None);
    }

    /** POST /heartbeat: remember when the session chat last reported. */
    method PostHeartbeat(session: Session, now: int) returns (code: int)
      modifies this
      ensures code == 200 && lastHeartbeat == old(lastHeartbeat)[session.chatId := now]
    {
      lastHeartbeat := lastHeartbeat[session.chatId := now];
      code := 200;
    }

    /** One run of the periodic check: every heartbeat entry older than
        five minutes is handed to `setChatNonActive` with consent 'true'.
        The entries are visited in any order, and the result is the same. */
    method Sweep(now: int)
      modifies this, db
      ensures State() == SweepResult(old(State()), now)
    {
      ghost var s0 := State();
      var pending := lastHeartbeat.Keys;
      var lastTimes := lastHeartbeat;
      ghost var done: set<Option<string>> := {};
      while pending != {}
        invariant pending + done == s0.heartbeat.Keys && pending !! done
        invariant lastTimes == s0.heartbeat
        invariant db.messages == s0.messages
        invariant db.chats.Keys == s0.chats.Keys
        invariant forall id :: id in s0.chats ==>
                    db.chats[id] == if Some(id) in Swept(s0, now) * done
                                    then Deactivated(s0.chats[id], now) else s0.chats[id]
        invariant lastHeartbeat == s0.heartbeat - Swept(s0, now) * done
        decreases pending
      {
        var key :| key in pending;
        if now - lastTimes[key] > HeartbeatTimeout {
          var _ := SetChatNonActive(key, Some("true"), now);
        }
        pending := pending - {key};
        done := done + {key};
      }
      assert Swept(s0, now) * done == Swept(s0, now);
    }
  }
}
