/** The Chat and Message schemas. A chat has a required status, ACTIVE or
    NONACTIVE, with no default; a message names its chat by a plain string,
    has an optional text and attachment and a required sender, USER or
    SELF. Both carry Mongoose's createdAt/updatedAt timestamps. */
module ChatModel {
  import opened Common

  datatype ChatStatus = Active | NonActive

  datatype Chat = Chat(status: ChatStatus, createdAt: int, updatedAt: int)

  datatype Sender = User | Self

  datatype Message = Message(
    chatId: string,
    msg: Option<string>,
    attachment: Option<string>,
    sender: Sender,
    createdAt: int,
    updatedAt: int)

  /** A chat saved at `now` with the status its creation site supplies. */
  function NewChat(status: ChatStatus, now: int): Chat {
    Chat(status, now, now)
  }

  /** The one status change the controllers make: ACTIVE to NONACTIVE, which
      refreshes updatedAt and keeps createdAt. */
  function Deactivated(c: Chat, now: int): (d: Chat)
    requires c.status == Active
    ensures d.status == NonActive && d.createdAt == c.createdAt && d.updatedAt == now
  {
    c.(status := NonActive, updatedAt := now)
  }

  /** The messages whose chat is not in `ids`, in their original order:
      what `Message.deleteMany({ chatId: { $in: ids } })` leaves behind. */
  function DropMessagesOf(messages: seq<Message>, ids: set<string>): (r: seq<Message>)
    ensures forall m :: m in r <==> m in messages && m.chatId !in ids
    ensures IsSubsequence(r, messages)
    ensures forall m :: multiset(r)[m] == if m.chatId in ids then 0 else multiset(messages)[m]
    ensures |r| <= |messages|
    ensures (forall m :: m in messages ==> m.chatId !in ids) ==> r == messages
  {
    if messages == [] then []
    else
      var init, last := messages[..|messages| - 1], messages[|messages| - 1];
      assert messages == init + [last];
      assert multiset(messages) == multiset(init) + multiset{last};
      var kept := DropMessagesOf(init, ids);
      if last.chatId in ids then kept
      else
        assert (kept + [last])[..|kept|] == kept;
        kept + [last]
  }
}

/** The Express session record shared by the chat and admin routes. */
module Sessions {
  import opened Common

  datatype Session = Session(
    chatId: Option<string>,
    consent: Option<string>,
    adminId: Option<string>,
    username: Option<string>)
}

/** The `chat` and `message` collections, read and written by both the
    chat controller and the admin controller. */
module ChatDb {
  import opened ChatModel

  class ChatStore {
    var chats: map<string, Chat>
    var messages: seq<Message>

    constructor ()
      ensures chats == map[] && messages == []
    {
      chats := map[];
      messages := [];
    }
  }
}
