# Anti-spam throttle and handler logic of the Sharyinets Telegram bot

This project models the parts of the bot that hold real logic, and proves
properties of them.

- **`AntiSpamMiddleware`** (`config/middleware.py`). For each user the bot
  keeps the times of that user's recent accepted requests. On each request
  it drops the leading entries that are more than 30 seconds old. The
  request is spam when five or more entries remain; otherwise its time is
  appended. `process_event` turns the verdict into one of four outcomes: a
  warning to the chat, a logged error for a spam callback query without a
  message, an activity record, or nothing for updates without a user. The middleware is a class whose `userRequests` map is updated in
  place, as in the source. `CheckSpam` prunes the list with a `while` loop
  and is proved against the functions `Prune`, `IsSpam` and `After`. The
  invariants are proved about those functions and over whole runs of calls.
- **The handlers** (`handlers/handlers.py`), in module `Handlers`:
  - the mention text for the event button;
  - the table of users whose event text is awaited: class `EventButton`,
    with a map field that one handler fills and the next private message
    consumes;
  - the `/set_chats` argument parser;
  - the bot-status and user-status gate in front of invite links.

  Telegram and database calls are `Effect` values listed in the order the
  handler makes them. The answers those calls return are parameters.
- **The two configuration expressions of `main.py`**, in module `Settings`:
  - the proxy dictionary derived from `PROXY_URL` with `split("//")`,
    `split(":")` and `int`, including the two ways it raises;
  - the chat ids read from the stored configuration, with `None` as the
    fallback.
- **`PythonText`** holds the Python built-ins that the parsing above relies
  on: `str.isspace`, `str.split()`, `str.split(sep)`, `sep.join`,
  base-10 `int(text)` (with the whitespace it skips, its underscores and
  signs) and `str(n)`. Their properties are what the parser proofs are built from.

Time is an integer number of microseconds, passed in by the caller instead of
`datetime.now()`. `(now - t).total_seconds() > 30` is then `now - t >
30_000_000`, which keeps the source's strict comparison.

Two consequences of the code are worth stating plainly:

- After five requests at 0..4 s, a request at t = 31 s finds the entry from
  1 s exactly 30 s old. That entry is kept, and only the entry from 0 s is
  dropped. The request is still accepted, because four entries remain;
  `LateStep` and `BurstScenario` state this.
- The code appends the current time without comparing it to the stored
  ones. A history is therefore in time order only when the clock never goes
  backwards, and `ChronologicalPreserved` and `RunChronological` assume
  exactly that.

## Model

| member | source | states |
|---|---|---|
| Middleware.Prune | config/middleware.py:29-30 | the kept history is no longer than the original; every dropped entry is more than 30 s older than `now`; the first kept entry is not |
| Middleware.Expired | config/middleware.py:29 | an entry is expired when it is strictly more than 30 000 000 µs older than `now` |
| Middleware.IsSpam | config/middleware.py:25-34 | the verdict of `check_spam`: the user is known and at least five entries survive pruning |
| Middleware.After | config/middleware.py:25-40 | the table after `check_spam`: `[now]` for a new user; otherwise the pruned history, with `now` appended unless the verdict is spam |
| Middleware.PruneKeepsSuffix | config/middleware.py:29-30 | the kept entries are the last entries of the history, in their original order |
| Middleware.PruneIsFresh | config/middleware.py:29-30 | on a history in time order, dropping the expired prefix gives exactly the unexpired entries (checked against an independent filter) |
| Middleware.WindowBoundary | config/middleware.py:29 | an entry exactly 30 s old is kept; one a microsecond older is dropped |
| Middleware.FirstRequestAccepted | config/middleware.py:38-40 | a user not in the table is not spam, and their history becomes exactly `[now]` |
| Middleware.VerdictAndRecord | config/middleware.py:33-37 | spam iff the pruned history holds at least five entries; on spam only the pruned history is stored, so it never grows; otherwise the pruned history plus `now` is stored |
| Middleware.OthersUntouched | config/middleware.py:25-40 | a call never adds, removes or changes another user's entry |
| Middleware.BoundedPreserved | config/middleware.py:33-40 | if every history holds at most five entries before a call, it does after |
| Middleware.PruneSorted | config/middleware.py:29-37 | a pruned history in time order stays in order, also with a later `now` appended |
| Middleware.ChronologicalPreserved | config/middleware.py:25-40 | when `now` is not earlier than any stored time, every history stays in time order and no entry is later than `now` |
| Middleware.RunBounded | config/middleware.py:13-42 | after any sequence of calls, every history holds at most five entries |
| Middleware.Run | config/middleware.py:13-42 | the table after a sequence of `check_spam` calls, applied in order |
| Middleware.RunChronological | config/middleware.py:13-42 | calls whose times never go backwards leave every history in time order |
| Middleware.RunIndependent | config/middleware.py:25-40 | calls from other users never create, remove or change a user's history |
| Middleware.AcceptStep | config/middleware.py:33-37 | with fewer than five unexpired entries the call is accepted and `now` is appended |
| Middleware.RejectStep | config/middleware.py:33-34 | with five unexpired entries the call is spam and the table is unchanged |
| Middleware.LateStep | config/middleware.py:29-37 | at 31 s the entry from 0 s is dropped, the one from 1 s is kept, and the call is accepted |
| Middleware.EventUser | config/middleware.py:52-54 | an event is throttled for its sender's id exactly when there is a sender and the id is not 0 (falsy in Python) |
| Middleware.WarnChat | config/middleware.py:58 | the warning goes to `event.chat` for a message and to the attached message's chat for a callback query; absent for a callback without a message |
| Middleware.AntiSpamMiddleware.constructor | config/middleware.py:9-11 | the table starts empty |
| Middleware.AntiSpamMiddleware.CheckSpam | config/middleware.py:13-42 | returns the verdict `IsSpam` of the old table and leaves the table as `After` says; the five-entry bound is kept |
| Middleware.AntiSpamMiddleware.ProcessEvent | config/middleware.py:44-69 | no user: `Skip` and no state change; spam: a warning to the message's chat, or a logged error for a callback without a message; otherwise the user's activity is logged; the table follows `After` |
| Middleware.BurstScenario | config/middleware.py:13-42 | calls at 0..4 s are accepted, calls at 5 s and 6 s are spam, a call at 31 s is accepted, and the history ends as `[1 s, 2 s, 3 s, 4 s, 31 s]` |
| Handlers.Mentions | handlers/handlers.py:94 | when every mention is defined there is one per user |
| Handlers.Mention | handlers/handlers.py:94 | `"@" + username` for a non-empty username, otherwise the full name, absent when that is NULL |
| Handlers.MentionText | handlers/handlers.py:94-95 | the mentions joined by single spaces, absent when some mention is |
| Handlers.MentionsInOrder | handlers/handlers.py:94 | the i-th mention is `"@" + username` of the i-th user when the username is non-empty, and their full name otherwise |
| Handlers.MentionTextDefined | handlers/handlers.py:94-95 | the mention text exists iff every user has a non-empty username or a full name |
| Handlers.MentionsAppend | handlers/handlers.py:94 | one more user adds their mention at the end |
| Handlers.MentionTextAppend | handlers/handlers.py:95 | one more user adds a single space and their mention at the end of the text |
| Handlers.EventButton.constructor | handlers/handlers.py:78-83 | the button keeps its chat id and starts with nothing awaited |
| Handlers.EventButton.HandleEvent | handlers/handlers.py:86-102 | outside the configured chat: only the "group only" answer, with the table unchanged; inside it: the prompt, then an answer, and `(chat, mention text)` stored under the presser, replacing any earlier entry; a user with neither username nor full name makes the join raise before anything is sent or stored |
| Handlers.EventButton.HandleEventText | handlers/handlers.py:104-112 | a sender with a pending entry loses it and `"<mention text>, <text>"` goes to the stored chat; any other sender changes nothing and sends nothing |
| Handlers.Announcement | handlers/handlers.py:112 | the announcement is the stored mention text, a comma and a space, then the event text |
| Handlers.PressThenWrite | handlers/handlers.py:86-112 | pressing the button in the group and then writing a text sends the mention text and the text to the group, and leaves nothing awaited |
| Handlers.SetChats | handlers/handlers.py:190-203 | the reply is the usage text alone iff the text does not split into exactly three words whose second and third pass `int()`; otherwise `int()` of the second word is saved as the inviting chat and of the third as the invited chat, the chat data is updated with both, and both ids are confirmed |
| Handlers.ParseSetChats | handlers/handlers.py:193 | `map(int, text.split()[1:])` unpacked into two names: both ids when exactly two words follow the command and both pass `int()`, absent when the unpacking or an `int()` raises |
| Handlers.ChatsSetText | handlers/handlers.py:199-201 | the confirmation lists the inviting and then the invited chat id, printed with `str()` |
| Handlers.SetChatsAcceptsExactlyTwoIntegers | handlers/handlers.py:193 | parsing succeeds iff the text splits into exactly three words whose second and third are integers; the second is the inviting chat |
| Handlers.SetChatsSavesOnlyWhenParsed | handlers/handlers.py:193-203 | something is saved or updated iff the command parses |
| Handlers.SetChatsRoundTrip | handlers/handlers.py:193-201 | `"<command> <A> <B>"` with the ids printed in decimal parses back to `(A, B)` |
| Handlers.ParseOfTokens | handlers/handlers.py:193 | three words whose last two are integers parse to those integers |
| Handlers.HasUsername | handlers/handlers.py:94 | the truth test of `username`: present and non-empty |
| Handlers.BotMayInvite | handlers/handlers.py:63 | the bot's status is `administrator` or `creator` |
| Handlers.UserInGroup | handlers/handlers.py:68 | the user's status is `member`, `administrator` or `creator` |
| Handlers.InviteOnlyWhenPermitted | handlers/handlers.py:62-76 | a link is exported iff the bot is administrator or creator and the user is member, administrator or creator; an exported link is sent to the user |
| Handlers.HandleInvite | handlers/handlers.py:57-76 | the invite handler's effects from the answers of its Telegram calls: the bot-rights refusal, the not-in-group refusal, or the exported link sent to the user, with the callback answered after a link or a caught exception |
| Handlers.BotCheckedFirst | handlers/handlers.py:62-65 | without bot rights the only effect is the bot-rights message, whatever the user's status |
| Handlers.RefusalsAreDistinct | handlers/handlers.py:67-70 | a user outside the group gets only the not-in-group message, which differs from the bot-rights message |
| Settings.ProxyEnabledWhenSet | main.py:40 | an unset or empty `PROXY_URL` gives no proxy; a configured proxy is enabled and carries the hostname and port parsed from the URL |
| Settings.HostnameOf | main.py:40 | `url.split("//")[1].split(":")[0]`, absent when the split has no element 1 |
| Settings.PortOf | main.py:40 | `int(url.split(":")[-1])`, absent when `int()` raises |
| Settings.ProxyFrom | main.py:40 | no proxy for an unset or empty URL; otherwise the hostname is evaluated first, then the port, and the first one to raise decides the error |
| Settings.ProxyNeedsSchemeSeparator | main.py:40 | a non-empty URL without `//` raises `IndexError` |
| Settings.HostnameFields | main.py:40 | the hostname is the text right after the first `//`; it holds no `:`, no `//` starts inside it, and it ends at the end of that text, at a `:` or at a `//` |
| Settings.PortFields | main.py:40 | the port is the integer value of a suffix of the URL that holds no `:` and is the whole URL or follows a `:` |
| Settings.ProxyRoundTrip | main.py:40 | `scheme://host:port` gives back an enabled proxy with that host and port |
| Settings.RoundTripHostname | main.py:40 | the hostname of `scheme://host:port` is `host` |
| Settings.RoundTripPort | main.py:40 | the port of `scheme://host:port` is `port` |
| Settings.ProxyWithoutPortRaises | main.py:40 | `scheme://host` without a port raises `ValueError` |
| Settings.ProxyWithPathRaises | main.py:40 | `scheme://host:port/path` raises `ValueError`, because the text after the last `:` is not an integer |
| Settings.ProxyWithControlBeforePortRaises | main.py:40 | `scheme://host:` followed by a U+001C..U+001F control and the port raises `ValueError` |
| Settings.LoadChatIds | main.py:25-32 | if loading raised, both ids are `None`; otherwise each id is present iff its key is stored, with the stored value |
| Settings.Lookup | main.py:27-28 | `chats.get(key)`: the stored id, or absent when the key is missing |
| PythonText.IsSpace | handlers/handlers.py:193 | the characters for which `str.isspace()` holds, on which `str.split()` splits |
| PythonText.IsIntSpace | main.py:40 | the whitespace `int()` skips around a number: `str.isspace()` characters except U+001C..U+001F |
| PythonText.Split | handlers/handlers.py:193 | every piece of `str.split()` is a non-empty run of non-whitespace characters |
| PythonText.SplitLayout | handlers/handlers.py:193 | the text is whitespace gaps and the pieces in alternation, and every gap between two pieces is non-empty: the pieces are the maximal non-whitespace runs, in order |
| PythonText.SplitJoinedWords | handlers/handlers.py:193 | words without whitespace, joined by single spaces, split back into exactly those words |
| PythonText.JoinAppend | handlers/handlers.py:95 | `sep.join` puts one separator between neighbouring parts, in their order |
| PythonText.Join | handlers/handlers.py:95 | `sep.join(parts)`: the parts in order with one separator between neighbours |
| PythonText.Find | main.py:40 | the result is the first position where the separator occurs, or none if it never occurs |
| PythonText.SplitOn | main.py:40 | `s.split(sep)`: the text between successive non-overlapping occurrences of `sep`, left to right |
| PythonText.JoinSplitOn | main.py:40 | joining the pieces of `s.split(sep)` with `sep` gives back `s` |
| PythonText.SplitOnPieces | main.py:40 | no piece of `s.split(sep)` holds `sep` |
| PythonText.SplitOnFirst | main.py:40 | the first piece is a prefix of `s` without `sep`; its length is the position of the first `sep` when there is one, and it is the only piece iff `s` holds no `sep` |
| PythonText.SplitOnLast | main.py:40 | the last piece (`[-1]`) holds no `sep` and is what follows the final `sep` |
| PythonText.StripKeeps | main.py:40 | the strip `int()` applies keeps every character that is not whitespace to `int()` |
| PythonText.StripLeftRemovesSpaces | main.py:40 | what that strip removes at the front is whitespace `int()` skips |
| PythonText.StripRightRemovesSpaces | main.py:40 | what that strip removes at the back is whitespace `int()` skips |
| PythonText.Strip | main.py:40 | the text `int()` reads: whitespace that `int()` skips removed from both ends |
| PythonText.PyInt | main.py:40 | base-10 `int(text)`: surrounding whitespace skipped, an optional sign, digits with single underscores between digits; absent where `int()` raises `ValueError`, for texts of at most 4300 digits |
| PythonText.PyIntChars | main.py:40 | text accepted by `int()` holds only digits, `_` and signs once stripped |
| PythonText.PyIntRejects | main.py:40 | a character other than whitespace `int()` skips, a digit, `_` or a sign makes `int()` raise |
| PythonText.IntRejectsSeparatorControls | main.py:40 | U+001C..U+001F are whitespace to `str.isspace()`, but `int()` rejects text that holds one |
| PythonText.NatDigitsValue | handlers/handlers.py:200 | the decimal digits printed for a natural number have that number as their value |
| PythonText.IntToString | handlers/handlers.py:200 | `str(n)` for a number of at most 4300 digits: a minus sign for negative numbers, then the decimal digits |
| PythonText.IntRoundTrip | handlers/handlers.py:193-200 | `int(str(n)) == n` for every integer of at most 4300 digits |

## Left out

- The database layer (`config/config.py`): `save_chat`, `update_chat_data`,
  `get_users_in_chat`, `load_config` and `log_user_activity` are SQL
  statements. They appear only as effects, or as the rows and tables passed in.
- Logging (`logger.py` and every `logger.error` call) is left out. The
  middleware's error path becomes the `LogError` action.
- Every Telegram call is an `Effect`, or its answer is a parameter. This
  covers `send_message`, `reply_text`, `answer`, `get_chat_member`,
  `export_chat_invite_link` and `restrict_chat_member`, and the handler
  registration in `register_middleware`. A call that raises is an absent
  answer.
- The wall clock is not modelled: `datetime.now()` becomes an integer
  microsecond parameter.
- Async scheduling and concurrency are left out. `check_spam` makes no
  `await` between reading and writing the table, so each call is one atomic
  step.
- Handlers that only forward to Telegram or the database are left out:
  `StartHandler`, `HelpButton`, `MessageHandler` and `NewMemberHandler`.
- `DepartureHandler` is left out. Its trigger is Unicode lower-casing of
  Cyrillic text, and its action is a timed restriction done by API calls.
- Bot startup and shutdown (`main.py:53-75`) are I/O and are left out.
- Handlers.HandleInvite: a raising `get_chat_member` or
  `export_chat_invite_link` is modelled as an absent answer. `handle_invite`
  catches every exception (`handlers/handlers.py:60`, `74-76`), logs it and
  then answers the callback. The model does not cover a failing
  `send_message` for a refusal: when a refusal cannot be sent, the source
  still calls `answer()`, but the model lists only the send. A failing link
  message is covered, since the source answers the callback after it either
  way.
- `process_event` also catches every exception
  (`config/middleware.py:51`, `68-69`). The model covers the one its code can
  raise itself, a callback query without a message (`LogError`). A failing
  warning `send_message` or a failing `log_user_activity` is not modelled.
- Exceptions raised by Telegram or database calls in `handle_event`,
  `handle_event_text` and `set_chats` are left out. These handlers do not
  catch such exceptions, except `ValueError` and `IndexError` in
  `set_chats`; after a failing call the rest of the handler does not run.
  The one exception modelled is the NULL full name in a mention.
- The table in `AntiSpamMiddleware` grows by one entry per distinct user and
  is never cleaned; the model has the same table and no size bound on it.
- PyInt: has no limit on the number of digits. Since Python 3.11, and in
  the 3.7-3.10 security releases, `int()` raises `ValueError` for more than
  4300 digits by default (`sys.set_int_max_str_digits`). The model accepts
  such texts. For example, `PROXY_URL = "http://h:"` followed by 4301 ones
  gives a proxy in `Settings.ProxyFrom`, where `main.py:40` raises. A
  Telegram message holds at most 4096 characters, so `/set_chats` cannot
  reach the limit.
- IntToString: is total. Under the same default limit, `str(n)` raises
  `ValueError` for a number of more than 4300 digits; the model prints it.
  `IntRoundTrip` and `SetChatsRoundTrip` therefore match Python only for
  numbers of at most 4300 digits.
- PyInt: accepts only ASCII digits. Python's `int()` also accepts other
  Unicode decimal digits, so the model rejects some strings Python accepts.
- PyInt: covers base 10 only, which is the base `main.py:40` and
  `handlers/handlers.py:193` use.
- Handlers.HandleInvite: takes each member status as the string the source
  compares it with. The model does not cover a client library that returns
  enum values instead of strings; with such values no comparison would
  match.
