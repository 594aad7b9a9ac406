/** The admin handlers: account creation, login, a chat's history and the
    purge of old closed chats. bcrypt's hash and compare are passed in as
    functions the model knows nothing about. */
module AdminController {
  import opened Common
  import opened ChatModel
  import opened Sessions
  import opened ChatDb
  import Sorting

  /** Seven days, in milliseconds. */
  const RetentionPeriod: int := 7 * 24 * 60 * 60 * 1000

  /** The one message both kinds of failed login answer with. */
  const LoginFailedMessage: string := "Username atau password salah"

  datatype Admin = Admin(id: string, username: string, password: string)

  /** What `createAccount` sends back about the new account. */
  datatype AdminView = AdminView(id: string, username: string)

  /** `bcrypt.hash(password, salt)` and `bcrypt.compare(password, hash)`. */
  datatype Bcrypt = Bcrypt(hash: (string, string) -> string, compare: (string, string) -> bool)

  /** `Admin.findOne({ username })`: the first account in natural order
      with that username. */
  function FindByUsername(admins: seq<Admin>, username: string): (r: Option<nat>)
    ensures r.None? <==> forall i :: 0 <= i < |admins| ==> admins[i].username != username
    ensures r.Some? ==> r.value < |admins| && admins[r.value].username == username
    ensures r.Some? ==> forall i :: 0 <= i < r.value ==> admins[i].username != username
  {
    if admins == [] then None
    else if admins[0].username == username then Some(0)
    else match FindByUsername(admins[1..], username)
      case None => None
      case Some(i) => Some(i + 1)
  }

  ghost predicate UniqueUsernames(admins: seq<Admin>) {
    forall i, j :: 0 <= i < j < |admins| ==> admins[i].username != admins[j].username
  }

  class AdminStore {
    var admins: seq<Admin>

    constructor ()
      ensures admins == []
    {
      admins := [];
    }

    /** POST /admin/create-account: 400 without both fields, 409 for a
        username already taken, otherwise the account is stored with the
        hash of the password and only its id and username are returned. */
    method CreateAccount(username: Option<string>, password: Option<string>, salt: string,
                         bcrypt: Bcrypt, newId: string) returns (code: int, created: Option<AdminView>)
      modifies this
      ensures UniqueUsernames(old(admins)) ==> UniqueUsernames(admins)
      ensures !(Truthy(username) && Truthy(password)) ==> code == 400 && created == None && admins == old(admins)
      ensures Truthy(username) && Truthy(password) && FindByUsername(old(admins), username.value).Some? ==>
                code == 409 && created == None && admins == old(admins)
      ensures Truthy(username) && Truthy(password) && FindByUsername(old(admins), username.value).None? ==>
                && code == 201
                && created == Some(AdminView(newId, username.value))
                && admins == old(admins) + [Admin(newId, username.value, bcrypt.hash(password.value, salt))]
    {
      if !Truthy(username) || !Truthy(password) {
        return 400, None;
      }
      if FindByUsername(admins, username.value).Some? {
        return 409, None;
      }
      var hashed := bcrypt.hash(password.value, salt);
      admins := admins + [Admin(newId, username.value, hashed)];
      return 201, Some(AdminView(newId, username.value));
    }
  }

  datatype LoginReply = LoginReply(code: int, message: string, session: Session)

  /** POST /admin/login: an unknown username and a wrong password give the
      same 401 reply and leave the session alone; success records the
      account's id and username in the session. */
  function Login(admins: seq<Admin>, session: Session, username: string, password: string,
                 bcrypt: Bcrypt): (r: LoginReply)
    ensures r.code == 200 <==>
              exists i :: 0 <= i < |admins| && FindByUsername(admins, username) == Some(i)
                          && bcrypt.compare(password, admins[i].password)
    ensures r.code != 200 ==> r == LoginReply(401, LoginFailedMessage, session)
    ensures r.code == 200 ==>
              var a := admins[FindByUsername(admins, username).value];
              r.session == session.(adminId := Some(a.id), username := Some(a.username))
  {
    match FindByUsername(admins, username)
    case None => LoginReply(401, LoginFailedMessage, session)
    case Some(i) =>
      if !bcrypt.compare(password, admins[i].password) then LoginReply(401, LoginFailedMessage, session)
      else LoginReply(200, "Berhasil Sign In", session.(adminId := Some(admins[i].id), username := Some(admins[i].username)))
  }

  /** The two failures cannot be told apart by the caller. */
  lemma LoginFailuresIndistinguishable(admins: seq<Admin>, session: Session, bcrypt: Bcrypt,
                                       unknown: string, known: string, wrong: string)
    requires FindByUsername(admins, unknown).None?
    requires FindByUsername(admins, known).Some?
    requires !bcrypt.compare(wrong, admins[FindByUsername(admins, known).value].password)
    ensures forall p :: Login(admins, session, unknown, p, bcrypt) == Login(admins, session, known, wrong, bcrypt)
  {
  }

  /** One row of a chat history: the message fields the query projects,
      plus the creation time of its chat. */
  datatype HistoryEntry = HistoryEntry(msg: Option<string>, createdAt: int, chatId: string, sender: Sender, chatAt: int)

  function EntryCreatedAt(e: HistoryEntry): int { e.createdAt }

  /** The `$match` and `$lookup`/`$unwind` stages: the messages of chat
      `chatId`, in natural order, each joined with its chat; none when the
      chat does not exist. */
  function Joined(chats: map<string, Chat>, messages: seq<Message>, chatId: string): (r: seq<HistoryEntry>)
    ensures chatId !in chats ==> r == []
    ensures chatId in chats ==> |r| == |Filtered(messages, chatId)|
    ensures chatId in chats ==>
              forall i :: 0 <= i < |r| ==> r[i] == Project(Filtered(messages, chatId)[i], chats[chatId])
    ensures forall e :: e in r ==> e.chatId == chatId && chatId in chats && e.chatAt == chats[chatId].createdAt
    ensures forall e :: e in r <==>
              chatId in chats && exists m :: m in messages && m.chatId == chatId && e == Project(m, chats[chatId])
  {
    if chatId !in chats then []
    else ProjectAll(Filtered(messages, chatId), chats[chatId])
  }

  /** The `$match` stage: the chat's messages, each with all its copies,
      in natural order. */
  function Filtered(messages: seq<Message>, chatId: string): (r: seq<Message>)
    ensures forall m :: m in r <==> m in messages && m.chatId == chatId
    ensures forall m :: multiset(r)[m] == if m.chatId == chatId then multiset(messages)[m] else 0
    ensures IsSubsequence(r, messages)
  {
    if messages == [] then []
    else
      var init, last := messages[..|messages| - 1], messages[|messages| - 1];
      assert messages == init + [last];
      assert multiset(messages) == multiset(init) + multiset{last};
      var kept := Filtered(init, chatId);
      if last.chatId != chatId then kept
      else
        assert (kept + [last])[..|kept|] == kept;
        kept + [last]
  }

  function Project(m: Message, c: Chat): HistoryEntry {
    HistoryEntry(m.msg, m.createdAt, m.chatId, m.sender, c.createdAt)
  }

  function ProjectAll(ms: seq<Message>, c: Chat): (r: seq<HistoryEntry>)
    ensures |r| == |ms|
    ensures forall i :: 0 <= i < |ms| ==> r[i] == Project(ms[i], c)
    ensures forall e :: e in r <==> exists m :: m in ms && e == Project(m, c)
  {
    if ms == [] then [] else [Project(ms[0], c)] + ProjectAll(ms[1..], c)
  }

  datatype HistoryReply = HistoryReply(code: int, data: seq<HistoryEntry>)

  /** GET /admin/chats/history?chatId=...: 400 without a chat id, 404 when
      nothing matches, otherwise the chat's messages, newest first. */
  function GetChatHistory(chats: map<string, Chat>, messages: seq<Message>, chatId: Option<string>): (r: HistoryReply)
    ensures !Truthy(chatId) ==> r == HistoryReply(400, [])
    ensures Truthy(chatId) ==>
              (r.code == 404 <==> chatId.value !in chats || forall m :: m in messages ==> m.chatId != chatId.value)
    ensures Truthy(chatId) && r.code != 404 ==> r.code == 200
    ensures r.code == 200 ==>
              && Truthy(chatId)
              && Sorting.SortedDesc(r.data, EntryCreatedAt)
              && multiset(r.data) == multiset(Joined(chats, messages, chatId.value))
              && r.data != []
  {
    if !Truthy(chatId) then HistoryReply(400, [])
    else
      var found := Sorting.SortDesc(Joined(chats, messages, chatId.value), EntryCreatedAt);
      Sorting.SortDescCorrect(Joined(chats, messages, chatId.value), EntryCreatedAt);
      if found == [] then HistoryReply(404, []) else HistoryReply(200, found)
  }

  /** The chats `deleteOldChats` selects at `now`: NONACTIVE and last
      updated at least seven days ago. */
  function OldChats(chats: map<string, Chat>, now: int): set<string> {
    set id | id in chats && chats[id].status == NonActive && chats[id].updatedAt <= now - RetentionPeriod
  }

  /** DELETE /admin/chats/delete-old. */
  method DeleteOldChats(db: ChatStore, now: int) returns (code: int, deleted: set<string>, count: nat)
    modifies db
    ensures code == 200
    ensures deleted == OldChats(old(db.chats), now) && count == |deleted|
    ensures db.chats == old(db.chats) - deleted
    ensures db.messages == DropMessagesOf(old(db.messages), deleted)
  {
    var oldChats := OldChats(db.chats, now);
    if |oldChats| == 0 {
      return 200, {}, 0;
    }
    db.messages := DropMessagesOf(db.messages, oldChats);
    db.chats := db.chats - oldChats;
    return 200, oldChats, |oldChats|;
  }

  /** What the purge spares: an ACTIVE chat, or one updated within the last
      seven days, stays with all of its messages. */
  lemma PurgeSparesRecentAndActive(chats: map<string, Chat>, messages: seq<Message>, now: int, id: string)
    requires id in chats
    requires chats[id].status == Active || chats[id].updatedAt > now - RetentionPeriod
    ensures id in chats - OldChats(chats, now)
    ensures forall m :: m in messages && m.chatId == id ==> m in DropMessagesOf(messages, OldChats(chats, now))
  {
  }
}

/** The `isAdmin` middleware in front of every admin route except login. */
module AuthAdmin {
  import opened Common
  import opened Sessions

  const AccessDenied: string := "Akses ditolak. Silakan login terlebih dahulu."

  datatype Decision = Next | Reject(code: int, message: string)

  /** Lets the request through exactly when there is a session holding an
      admin id; otherwise a 401 with a fixed message. */
  function IsAdmin(session: Option<Session>): (d: Decision)
    ensures d == Next <==> session.Some? && Truthy(session.value.adminId)
    ensures d != Next ==> d == Reject(401, AccessDenied)
  {
    if session.Some? && Truthy(session.value.adminId) then Next else Reject(401, AccessDenied)
  }

  /** The decision looks at the admin id alone. */
  lemma DecisionDependsOnlyOnAdminId(a: Session, b: Session)
    requires a.adminId == b.adminId
    ensures IsAdmin(Some(a)) == IsAdmin(Some(b))
  {
  }
}
