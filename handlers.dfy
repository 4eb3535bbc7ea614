/** The decision and state logic of the bot's handlers in
    `handlers/handlers.py`: the event announcement (mention text and the table
    of users whose event text is awaited), the `/set_chats` command parser and
    the permission gate in front of invite links. Telegram and database calls
    appear only as `Effect` values; their answers are parameters. */
module Handlers {
  import opened PythonText

  /** What a handler asks of the outside world, in order. */
  datatype Effect =
    | Answer(notice: Option<string>)           // callback_query.answer(...)
    | Reply(text: string)                      // message.reply_text(...)
    | Send(chat: int, text: string)            // client.send_message(chat, ...)
    | ExportInviteLink(linkChat: Option<int>)  // client.export_chat_invite_link(...)
    | SaveChat(kind: string, chatId: int)      // save_chat(...)
    | UpdateChatData(inviting: int, invited: int)

  // ---------------------------------------------------------------------
  // Mentions
  // ---------------------------------------------------------------------

  /** A `(username, full_name)` row of the users table; either may be NULL. */
  datatype UserRow = UserRow(username: Option<string>, fullName: Option<string>)

  predicate HasUsername(u: UserRow) {
    u.username.Some? && u.username.value != ""
  }

  /** `"@" + username` for a non-empty username, otherwise the full name;
      `None` when that is NULL too, which makes the join raise. */
  function Mention(u: UserRow): Option<string> {
    if HasUsername(u) then Some("@" + u.username.value) else u.fullName
  }

  /** The mentions of all rows in order, or `None` if one of them is missing. */
  function Mentions(users: seq<UserRow>): (r: Option<seq<string>>)
    ensures r.Some? ==> |r.value| == |users|
    decreases |users|
  {
    if users == [] then Some([])
    else
      match (Mention(users[0]), Mentions(users[1..]))
      case (Some(m), Some(ms)) => Some([m] + ms)
      case _ => None
  }

  /** The mention text: all mentions joined by single spaces. */
  function MentionText(users: seq<UserRow>): Option<string> {
    match Mentions(users)
    case None => None
    case Some(ms) => Some(Join(ms, " "))
  }

  /** The mention text can be built exactly when every row has a non-empty
      username or a full name. */
  lemma {:induction false} MentionTextDefined(users: seq<UserRow>)
    ensures MentionText(users).Some? <==> forall i :: 0 <= i < |users| ==> HasUsername(users[i]) || users[i].fullName.Some?
    decreases |users|
  {
    if users != [] {
      MentionTextDefined(users[1..]);
      assert forall i :: 1 <= i < |users| ==> users[i] == users[1..][i - 1];
    }
  }

  /** Each row's mention sits at its own position, in the order of the rows. */
  lemma {:induction false} MentionsInOrder(users: seq<UserRow>, i: nat)
    requires Mentions(users).Some? && i < |users|
    ensures Mention(users[i]).Some? && Mentions(users).value[i] == Mention(users[i]).value
    decreases |users|
  {
    if i > 0 {
      MentionsInOrder(users[1..], i - 1);
    }
  }

  /** Another row adds one space and its mention at the end of the text. */
  lemma {:induction false} MentionTextAppend(users: seq<UserRow>, u: UserRow)
    requires users != [] && MentionText(users).Some? && Mention(u).Some?
    ensures MentionText(users + [u]) == Some(MentionText(users).value + " " + Mention(u).value)
  {
    MentionsAppend(users, u);
    JoinAppend(Mentions(users).value, Mention(u).value, " ");
  }

  lemma {:induction false} MentionsAppend(users: seq<UserRow>, u: UserRow)
    requires Mentions(users).Some? && Mention(u).Some?
    ensures Mentions(users + [u]) == Some(Mentions(users).value + [Mention(u).value])
    decreases |users|
  {
    if users == [] {
      assert users + [u] == [u];
      assert Mentions([u]) == Some([Mention(u).value]) by {
        assert [u][1..] == [];
        assert Mentions([u][1..]) == Some([]);
        assert [Mention(u).value] + [] == [Mention(u).value];
      }
      assert Mentions(users).value + [Mention(u).value] == [Mention(u).value];
    } else {
      assert (users + [u])[0] == users[0];
      assert (users + [u])[1..] == users[1..] + [u];
      var ms := Mentions(users[1..]).value;
      MentionsAppend(users[1..], u);
      var m0 := Mention(users[0]).value;
      assert Mentions(users).value == [m0] + ms;
      assert [m0] + (ms + [Mention(u).value]) == ([m0] + ms) + [Mention(u).value];
    }
  }

  // ---------------------------------------------------------------------
  // The event button and the awaited event text
  // ---------------------------------------------------------------------

  const OnlyInGroup: string := "Эта функция работает только в группе."
  const EnterEventText: string := "Введите текст для мероприятия:"

  /** The chat an announcement goes to and the mentions to put before it. */
  datatype Pending = Pending(chatId: int, mentionText: string)

  /** The announcement sent for an awaited event text. */
  function Announcement(p: Pending, text: string): string {
    p.mentionText + ", " + text
  }

  class EventButton {
    /** The group the button works in; `None` when no chat is configured, in
        which case no chat matches. */
    const chatId: Option<int>
    var waitingForEventText: map<int, Pending>

    constructor (chatId: Option<int>)
      ensures this.chatId == chatId && waitingForEventText == map[]
    {
      this.chatId := chatId;
      waitingForEventText := map[];
    }

    /** The event button pressed by `presser` in `chat`, whose members are
        `users`. */
    method HandleEvent(chat: int, presser: int, users: seq<UserRow>) returns (effects: seq<Effect>)
      modifies this
      ensures Some(chat) != chatId ==>
                waitingForEventText == old(waitingForEventText) && effects == [Answer(Some(OnlyInGroup))]
      ensures Some(chat) == chatId && MentionText(users).None? ==>
                waitingForEventText == old(waitingForEventText) && effects == []
      ensures Some(chat) == chatId && MentionText(users).Some? ==>
                && waitingForEventText == old(waitingForEventText)[presser := Pending(chat, MentionText(users).value)]
                && effects == [Reply(EnterEventText), Answer(None)]
    {
      if Some(chat) != chatId {
        return [Answer(Some(OnlyInGroup))];
      }
      var mentionText := MentionText(users);
      if mentionText.None? {
        // joining a NULL full name raises before anything is sent or stored
        return [];
      }
      waitingForEventText := waitingForEventText[presser := Pending(chat, mentionText.value)];
      return [Reply(EnterEventText), Answer(None)];
    }

    /** A private text message from `sender`. */
    method HandleEventText(sender: int, text: string) returns (effects: seq<Effect>)
      modifies this
      ensures sender !in old(waitingForEventText) ==>
                waitingForEventText == old(waitingForEventText) && effects == []
      ensures sender in old(waitingForEventText) ==>
                var p := old(waitingForEventText)[sender];
                && waitingForEventText == old(waitingForEventText) - {sender}
                && effects == [Send(p.chatId, Announcement(p, text))]
    {
      if sender in waitingForEventText {
        var p := waitingForEventText[sender];
        waitingForEventText := waitingForEventText - {sender};
        return [Send(p.chatId, Announcement(p, text))];
      }
      return [];
    }
  }

  /** Pressing the button in the configured group and then writing a text
      sends the mention text and the text to that group, and leaves the
      presser with nothing awaited. */
  method PressThenWrite(group: int, presser: int, users: seq<UserRow>, text: string)
    returns (effects: seq<Effect>, awaited: bool)
    requires MentionText(users).Some?
    ensures effects == [Reply(EnterEventText), Answer(None), Send(group, MentionText(users).value + ", " + text)]
    ensures !awaited
  {
    var button := new EventButton(Some(group));
    var first := button.HandleEvent(group, presser, users);
    var second := button.HandleEventText(presser, text);
    effects := first + second;
    awaited := presser in button.waitingForEventText;
  }

  // ---------------------------------------------------------------------
  // /set_chats
  // ---------------------------------------------------------------------

  const SetChatsUsage: string := "Используйте формат: /set_chats <inviting_chat_id> <invited_chat_id>"

  datatype ChatPair = ChatPair(inviting: int, invited: int)

  /** `inviting, invited = map(int, text.split()[1:])`: exactly two
      arguments after the command word, both integers; otherwise the
      unpacking or an `int` raises and the usage text is the answer. */
  function ParseSetChats(text: string): Option<ChatPair> {
    var tokens := Split(text);
    var args := if tokens == [] then [] else tokens[1..];
    if |args| != 2 then None
    else
      match (PyInt(args[0]), PyInt(args[1]))
      case (Some(a), Some(b)) => Some(ChatPair(a, b))
      case _ => None
  }

  function ChatsSetText(pair: ChatPair): string {
    "ID чатов установлены:\nINVITING_CHAT: " + IntToString(pair.inviting) + "\nINVITED_CHAT: " + IntToString(pair.invited)
  }

  /** The effects of a `/set_chats` message: the usage reply alone unless
      the words of the text are the command and two integers, in which case
      the first integer is saved as the inviting chat and the second as the
      invited one, the chat data is updated, and both are confirmed. */
  function SetChats(text: string): (effects: seq<Effect>)
    ensures effects == [Reply(SetChatsUsage)] <==>
              !(|Split(text)| == 3 && PyInt(Split(text)[1]).Some? && PyInt(Split(text)[2]).Some?)
    ensures |Split(text)| == 3 && PyInt(Split(text)[1]).Some? && PyInt(Split(text)[2]).Some? ==>
              var inviting := PyInt(Split(text)[1]).value;
              var invited := PyInt(Split(text)[2]).value;
              effects == [SaveChat("INVITING_CHAT", inviting), SaveChat("INVITED_CHAT", invited),
                          UpdateChatData(inviting, invited), Reply(ChatsSetText(ChatPair(inviting, invited)))]
  {
    match ParseSetChats(text)
    case None => [Reply(SetChatsUsage)]
    case Some(pair) =>
      [SaveChat("INVITING_CHAT", pair.inviting), SaveChat("INVITED_CHAT", pair.invited),
       UpdateChatData(pair.inviting, pair.invited), Reply(ChatsSetText(pair))]
  }

  /** A command is accepted exactly when it splits into three words whose
      second and third are integers; the first integer is the inviting chat. */
  lemma {:induction false} SetChatsAcceptsExactlyTwoIntegers(text: string)
    ensures ParseSetChats(text).Some? <==>
              |Split(text)| == 3 && PyInt(Split(text)[1]).Some? && PyInt(Split(text)[2]).Some?
    ensures ParseSetChats(text).Some? ==>
              ParseSetChats(text).value == ChatPair(PyInt(Split(text)[1]).value, PyInt(Split(text)[2]).value)
  {
  }

  /** Nothing is saved or updated unless the command parses. */
  lemma {:induction false} SetChatsSavesOnlyWhenParsed(text: string)
    ensures (exists i :: 0 <= i < |SetChats(text)| && (SetChats(text)[i].SaveChat? || SetChats(text)[i].UpdateChatData?))
            <==> ParseSetChats(text).Some?
  {
    if ParseSetChats(text).Some? {
      assert SetChats(text)[0].SaveChat?;
    }
  }

  /** `/set_chats A B`, written with any command word and the two ids printed
      in decimal, saves `A` as the inviting chat and `B` as the invited one. */
  lemma {:induction false} SetChatsRoundTrip(command: string, inviting: int, invited: int)
    requires IsToken(command)
    ensures ParseSetChats(command + " " + IntToString(inviting) + " " + IntToString(invited))
            == Some(ChatPair(inviting, invited))
  {
    var text := command + " " + IntToString(inviting) + " " + IntToString(invited);
    var a := IntToString(inviting);
    var b := IntToString(invited);
    assert Split(text) == [command, a, b] by {
      IntIsToken(inviting);
      IntIsToken(invited);
      JoinThree(command, a, b);
      SplitJoinedWords([command, a, b]);
    }
    assert PyInt(a) == Some(inviting) by {
      IntRoundTrip(inviting);
    }
    assert PyInt(b) == Some(invited) by {
      IntRoundTrip(invited);
    }
    ParseOfTokens(text, a, b);
  }

  lemma {:induction false} JoinThree(a: string, b: string, c: string)
    ensures Join([a, b, c], " ") == a + " " + b + " " + c
  {
    var words := [a, b, c];
    assert words[1..] == [b, c];
    assert words[1..][1..] == [c];
    assert Join(words[1..], " ") == b + " " + c;
  }

  /** A command whose words are a command word and two integers parses to
      those integers. */
  lemma {:induction false} ParseOfTokens(text: string, a: string, b: string)
    requires |Split(text)| == 3 && Split(text)[1] == a && Split(text)[2] == b
    requires PyInt(a).Some? && PyInt(b).Some?
    ensures ParseSetChats(text) == Some(ChatPair(PyInt(a).value, PyInt(b).value))
  {
    var tokens := Split(text);
    assert tokens[1..] == [a, b];
  }

  lemma {:induction false} IntIsToken(n: int)
    ensures IsToken(IntToString(n))
  {
    IntToStringChars(n);
  }

  // ---------------------------------------------------------------------
  // The invite button
  // ---------------------------------------------------------------------

  const NoBotRights: string := "Бот не имеет прав для создания пригласительной ссылки."
  const NotInGroup: string := "Вы не состоите в группе."
  const Welcome: string := "Милости прошу к нашему шалашу: "

  predicate BotMayInvite(status: string) {
    status == "administrator" || status == "creator"
  }

  predicate UserInGroup(status: string) {
    status == "member" || status == "administrator" || status == "creator"
  }

  /** The invite button pressed by `user`. The three arguments are the answers
      of the Telegram calls the handler makes, in order, `None` where the call
      raises: the bot's status in the inviting chat, the user's status there,
      and the exported link of the invited chat. A call that the handler does
      not reach has its argument ignored. The callback is answered only when
      the handler falls through to its last line: after a link is sent or an
      exception is logged, never after a refusal. */
  function HandleInvite(user: int, invitedChat: Option<int>,
                        botStatus: Option<string>, userStatus: Option<string>, link: Option<string>): (effects: seq<Effect>)
  {
    if botStatus.None? then [Answer(None)]
    else if !BotMayInvite(botStatus.value) then [Send(user, NoBotRights)]
    else if userStatus.None? then [Answer(None)]
    else if !UserInGroup(userStatus.value) then [Send(user, NotInGroup)]
    else if link.None? then [ExportInviteLink(invitedChat), Answer(None)]
    else [ExportInviteLink(invitedChat), Send(user, Welcome + link.value), Answer(None)]
  }

  /** A link is exported only when the bot is an administrator or the creator
      and the user is a member, an administrator or the creator; it is then
      sent to the user. */
  lemma {:induction false} InviteOnlyWhenPermitted(user: int, invitedChat: Option<int>,
                                botStatus: Option<string>, userStatus: Option<string>, link: Option<string>)
    ensures var effects := HandleInvite(user, invitedChat, botStatus, userStatus, link);
            (exists i :: 0 <= i < |effects| && effects[i].ExportInviteLink?)
            <==> botStatus.Some? && BotMayInvite(botStatus.value) && userStatus.Some? && UserInGroup(userStatus.value)
    ensures link.Some? && botStatus.Some? && BotMayInvite(botStatus.value) && userStatus.Some? && UserInGroup(userStatus.value) ==>
              Send(user, Welcome + link.value) in HandleInvite(user, invitedChat, botStatus, userStatus, link)
  {
    var effects := HandleInvite(user, invitedChat, botStatus, userStatus, link);
    if botStatus.Some? && BotMayInvite(botStatus.value) && userStatus.Some? && UserInGroup(userStatus.value) {
      assert effects[0].ExportInviteLink?;
    }
  }

  /** The bot's rights are checked first: without them the user gets the
      bot-rights message whatever their own status, and nothing else happens. */
  lemma {:induction false} BotCheckedFirst(user: int, invitedChat: Option<int>, botStatus: string,
                        userStatus: Option<string>, link: Option<string>)
    requires !BotMayInvite(botStatus)
    ensures HandleInvite(user, invitedChat, Some(botStatus), userStatus, link) == [Send(user, NoBotRights)]
  {
  }

  /** A refusal is one message of its own and leaves the callback unanswered. */
  lemma {:induction false} RefusalsAreDistinct(user: int, invitedChat: Option<int>, botStatus: string, userStatus: string, link: Option<string>)
    requires BotMayInvite(botStatus) && !UserInGroup(userStatus)
    ensures HandleInvite(user, invitedChat, Some(botStatus), Some(userStatus), link) == [Send(user, NotInGroup)]
    ensures NotInGroup != NoBotRights
  {
  }
}
