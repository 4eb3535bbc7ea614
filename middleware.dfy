/** The per-user anti-spam throttle of `config/middleware.py`: a table from
    user id to the times of that user's recent accepted requests, pruned to a
    30-second sliding window and capped at five entries. Times are integers
    in microseconds, supplied by the caller in place of the wall clock. */
module Middleware {
  import opened PythonText

  /** An entry strictly more than this many microseconds older than the
      current time is dropped (30 seconds). */
  const WindowMicros: int := 30_000_000

  /** The number of entries inside the window at which a request is spam. */
  const MaxRequests: nat := 5

  const TooManyRequests: string := "Слишком много запросов! Пожалуйста, подождите 30 секунд."

  /** The source compares `total_seconds() > 30`: an entry exactly 30 s old
      is still inside the window. */
  predicate Expired(t: int, now: int) {
    now - t > WindowMicros
  }

  // ---------------------------------------------------------------------
  // The specification of one check_spam call
  // ---------------------------------------------------------------------

  /** The history left after dropping its leading expired entries: every
      dropped entry is expired and the first kept entry (if any) is not;
      `PruneKeepsSuffix` shows the kept entries are the history's last ones. */
  function Prune(times: seq<int>, now: int): (kept: seq<int>)
    ensures |kept| <= |times|
    ensures forall i :: 0 <= i < |times| - |kept| ==> Expired(times[i], now)
    ensures kept != [] ==> !Expired(kept[0], now)
    decreases |times|
  {
    if times != [] && Expired(times[0], now) then Prune(times[1..], now) else times
  }

  /** The kept entries are the last ones of the history, in their order. */
  lemma {:induction false} PruneKeepsSuffix(times: seq<int>, now: int, i: int)
    requires 0 <= i < |Prune(times, now)|
    ensures Prune(times, now)[i] == times[|times| - |Prune(times, now)| + i]
    decreases |times|
  {
    if times != [] && Expired(times[0], now) {
      PruneKeepsSuffix(times[1..], now, i);
    }
  }

  /** The verdict of `check_spam(user)` at time `now` against `table`. */
  predicate IsSpam(table: map<int, seq<int>>, user: int, now: int) {
    user in table && |Prune(table[user], now)| >= MaxRequests
  }

  /** The table after `check_spam(user)` at time `now`. A new user starts
      with `[now]`; a known user's history is pruned in place, and `now` is
      appended only when the request is not spam. */
  function After(table: map<int, seq<int>>, user: int, now: int): map<int, seq<int>> {
    if user !in table then table[user := [now]]
    else
      var kept := Prune(table[user], now);
      if |kept| >= MaxRequests then table[user := kept] else table[user := kept + [now]]
  }

  // ---------------------------------------------------------------------
  // Invariants
  // ---------------------------------------------------------------------

  /** Every history holds at most `MaxRequests` entries. */
  predicate Bounded(table: map<int, seq<int>>) {
    forall u :: u in table ==> |table[u]| <= MaxRequests
  }

  predicate Sorted(times: seq<int>) {
    forall i, j :: 0 <= i < j < |times| ==> times[i] <= times[j]
  }

  /** Every history is in time order and no entry is later than `clock`. */
  predicate Chronological(table: map<int, seq<int>>, clock: int) {
    forall u :: u in table ==> Sorted(table[u]) && forall i :: 0 <= i < |table[u]| ==> table[u][i] <= clock
  }

  // ---------------------------------------------------------------------
  // Properties of one call
  // ---------------------------------------------------------------------

  /** A user never seen before is not spam, and their history becomes exactly
      the current time. */
  lemma {:induction false} FirstRequestAccepted(table: map<int, seq<int>>, user: int, now: int)
    requires user !in table
    ensures !IsSpam(table, user, now)
    ensures After(table, user, now)[user] == [now]
  {
  }

  /** A spam verdict stores only the pruned history, so a rejected call never
      lengthens it; an accepted call stores the pruned history plus `now`. */
  lemma {:induction false} VerdictAndRecord(table: map<int, seq<int>>, user: int, now: int)
    requires user in table
    ensures IsSpam(table, user, now) <==> |Prune(table[user], now)| >= MaxRequests
    ensures IsSpam(table, user, now) ==> After(table, user, now)[user] == Prune(table[user], now)
    ensures IsSpam(table, user, now) ==> |After(table, user, now)[user]| <= |table[user]|
    ensures !IsSpam(table, user, now) ==> After(table, user, now)[user] == Prune(table[user], now) + [now]
  {
  }

  /** Only the calling user's entry can change. */
  lemma {:induction false} OthersUntouched(table: map<int, seq<int>>, user: int, now: int, other: int)
    requires other != user
    ensures other in After(table, user, now) <==> other in table
    ensures other in table ==> After(table, user, now)[other] == table[other]
  {
  }

  /** The cap of five entries per user holds after every call. */
  lemma {:induction false} BoundedPreserved(table: map<int, seq<int>>, user: int, now: int)
    requires Bounded(table)
    ensures Bounded(After(table, user, now))
  {
    var next := After(table, user, now);
    forall u | u in next
      ensures |next[u]| <= MaxRequests
    {
      if u != user {
        assert next[u] == table[u];
      } else if user in table {
        var kept := Prune(table[user], now);
        assert next[u] == kept || (|kept| < MaxRequests && next[u] == kept + [now]);
      }
    }
  }

  /** An entry exactly 30 s old is kept; one a microsecond older is dropped. */
  lemma {:induction false} WindowBoundary(times: seq<int>, now: int)
    requires times != []
    ensures now - times[0] == WindowMicros ==> Prune(times, now) == times
    ensures now - times[0] == WindowMicros + 1 ==> Prune(times, now) == Prune(times[1..], now)
  {
  }

  /** The reference meaning of pruning: the entries not yet expired. */
  function Fresh(times: seq<int>, now: int): seq<int>
    decreases |times|
  {
    if times == [] then []
    else if Expired(times[0], now) then Fresh(times[1..], now)
    else [times[0]] + Fresh(times[1..], now)
  }

  lemma {:induction false} FreshOfUnexpired(times: seq<int>, now: int)
    requires forall i :: 0 <= i < |times| ==> !Expired(times[i], now)
    ensures Fresh(times, now) == times
    decreases |times|
  {
    if times != [] {
      FreshOfUnexpired(times[1..], now);
    }
  }

  /** On a history in time order, dropping the expired prefix drops exactly the
      expired entries: everything after the first fresh entry is fresh too. */
  lemma {:induction false} PruneIsFresh(times: seq<int>, now: int)
    requires Sorted(times)
    ensures Prune(times, now) == Fresh(times, now)
    decreases |times|
  {
    if times != [] {
      if Expired(times[0], now) {
        PruneIsFresh(times[1..], now);
      } else {
        FreshOfUnexpired(times, now);
      }
    }
  }

  lemma {:induction false} SortedSuffixAppend(times: seq<int>, d: nat, now: int)
    requires Sorted(times) && forall i :: 0 <= i < |times| ==> times[i] <= now
    requires d <= |times|
    ensures Sorted(times[d..]) && Sorted(times[d..] + [now])
  {
    var ext := times[d..] + [now];
    forall i, j | 0 <= i < j < |ext|
      ensures ext[i] <= ext[j]
    {
      if j < |ext| - 1 {
        assert ext[i] == times[d + i] && ext[j] == times[d + j];
      } else {
        assert ext[i] == times[d + i];
      }
    }
    assert times[d..] == ext[..|ext| - 1];
  }

  /** A pruned history in time order stays in time order, and so does it with
      a later time appended. */
  lemma {:induction false} PruneSorted(times: seq<int>, clock: int, now: int)
    requires Sorted(times) && forall i :: 0 <= i < |times| ==> times[i] <= clock
    requires clock <= now
    ensures Sorted(Prune(times, now)) && Sorted(Prune(times, now) + [now])
    ensures forall i :: 0 <= i < |Prune(times, now)| ==> Prune(times, now)[i] <= clock
    decreases |times|
  {
    if times != [] && Expired(times[0], now) {
      SortedSuffixAppend(times, 1, now);
      assert forall i :: 0 <= i < |times[1..]| ==> times[1..][i] <= clock;
      PruneSorted(times[1..], clock, now);
    } else {
      SortedSuffixAppend(times, 0, now);
      assert times[0..] == times;
    }
  }

  /** When time does not go backwards, every history stays in time order. */
  lemma {:induction false} ChronologicalPreserved(table: map<int, seq<int>>, clock: int, user: int, now: int)
    requires Chronological(table, clock)
    requires clock <= now
    ensures Chronological(After(table, user, now), now)
  {
    var next := After(table, user, now);
    forall u | u in next
      ensures Sorted(next[u]) && forall i :: 0 <= i < |next[u]| ==> next[u][i] <= now
    {
      if u != user {
        assert next[u] == table[u];
      } else if user in table {
        PruneSorted(table[user], clock, now);
        var kept := Prune(table[user], now);
        assert next[u] == kept || next[u] == kept + [now];
      } else {
        assert next[u] == [now];
      }
    }
  }

  // ---------------------------------------------------------------------
  // Sequences of calls
  // ---------------------------------------------------------------------

  datatype Call = Call(user: int, now: int)

  /** The table after a sequence of `check_spam` calls, in order. */
  function Run(table: map<int, seq<int>>, calls: seq<Call>): map<int, seq<int>>
    decreases |calls|
  {
    if calls == [] then table else Run(After(table, calls[0].user, calls[0].now), calls[1..])
  }

  /** After any sequence of calls, starting from the empty table or any
      bounded one, no user has more than five stored request times. */
  lemma {:induction false} RunBounded(table: map<int, seq<int>>, calls: seq<Call>)
    requires Bounded(table)
    ensures Bounded(Run(table, calls))
    decreases |calls|
  {
    if calls != [] {
      BoundedPreserved(table, calls[0].user, calls[0].now);
      RunBounded(After(table, calls[0].user, calls[0].now), calls[1..]);
    }
  }

  /** Calls whose times never go backwards keep every history in time order. */
  lemma {:induction false} RunChronological(table: map<int, seq<int>>, clock: int, calls: seq<Call>)
    requires Chronological(table, clock)
    requires forall i :: 0 <= i < |calls| ==> clock <= calls[i].now
    requires forall i, j :: 0 <= i < j < |calls| ==> calls[i].now <= calls[j].now
    ensures forall u :: u in Run(table, calls) ==> Sorted(Run(table, calls)[u])
    decreases |calls|
  {
    if calls == [] {
    } else {
      var c := calls[0];
      ChronologicalPreserved(table, clock, c.user, c.now);
      RunChronological(After(table, c.user, c.now), c.now, calls[1..]);
    }
  }

  /** Calls from other users never change a user's history. */
  lemma {:induction false} RunIndependent(table: map<int, seq<int>>, calls: seq<Call>, user: int)
    requires forall i :: 0 <= i < |calls| ==> calls[i].user != user
    ensures user in Run(table, calls) <==> user in table
    ensures user in table ==> Run(table, calls)[user] == table[user]
    decreases |calls|
  {
    if calls != [] {
      RunIndependent(After(table, calls[0].user, calls[0].now), calls[1..], user);
    }
  }

  const Second: int := 1_000_000

  /** The table holding one user's history. */
  function Solo(user: int, times: seq<int>): map<int, seq<int>> {
    map[user := times]
  }

  /** A call while the window holds fewer than five entries, none expired, is
      accepted and appended. */
  lemma {:induction false} AcceptStep(user: int, times: seq<int>, now: int)
    requires |times| < MaxRequests
    requires times != [] ==> !Expired(times[0], now)
    ensures !IsSpam(Solo(user, times), user, now)
    ensures After(Solo(user, times), user, now) == Solo(user, times + [now])
  {
  }

  /** A call while the window holds five unexpired entries is spam and leaves
      the table as it was. */
  lemma {:induction false} RejectStep(user: int, times: seq<int>, now: int)
    requires |times| == MaxRequests && !Expired(times[0], now)
    ensures IsSpam(Solo(user, times), user, now)
    ensures After(Solo(user, times), user, now) == Solo(user, times)
  {
  }

  /** At 31 s the entry from 0 s has expired and the other four remain. */
  lemma {:induction false} LateStep(user: int)
    ensures !IsSpam(Solo(user, [0, Second, 2 * Second, 3 * Second, 4 * Second]), user, 31 * Second)
    ensures After(Solo(user, [0, Second, 2 * Second, 3 * Second, 4 * Second]), user, 31 * Second)
            == Solo(user, [Second, 2 * Second, 3 * Second, 4 * Second, 31 * Second])
  {
    var full := [0, Second, 2 * Second, 3 * Second, 4 * Second];
    assert Expired(full[0], 31 * Second);
    assert Prune(full, 31 * Second) == Prune(full[1..], 31 * Second);
    assert full[1..] == [Second, 2 * Second, 3 * Second, 4 * Second];
    assert Prune(full[1..], 31 * Second) == full[1..];
    assert full[1..] + [31 * Second] == [Second, 2 * Second, 3 * Second, 4 * Second, 31 * Second];
  }

  // ---------------------------------------------------------------------
  // The middleware object
  // ---------------------------------------------------------------------

  /** An inbound update: a message carries its chat; a callback query carries
      the chat of the message it is attached to, absent for a callback from
      an inline message. `sender` is absent for updates without a user. */
  datatype Event =
    | Message(sender: Option<int>, chatId: int)
    | CallbackQuery(sender: Option<int>, messageChat: Option<int>)

  /** What `process_event` does beyond updating the table: nothing, send the
      warning to a chat, record the user's activity, or log an error. */
  datatype Action =
    | Skip
    | Warn(chat: int, text: string)
    | LogActivity(user: int)
    | LogError

  /** The user a `process_event` call throttles: Python treats a missing
      sender and the id 0 alike as false and skips the event. */
  function EventUser(event: Event): (user: Option<int>)
    ensures user.Some? <==> event.sender.Some? && event.sender.value != 0
    ensures user.Some? ==> user.value == event.sender.value
  {
    match event.sender
    case None => None
    case Some(id) => if id == 0 then None else Some(id)
  }

  /** The chat the warning goes to: `event.chat` for a message, the attached
      message's chat for a callback query. */
  function WarnChat(event: Event): Option<int> {
    match event
    case Message(_, chat) => Some(chat)
    case CallbackQuery(_, chat) => chat
  }

  class AntiSpamMiddleware {
    var userRequests: map<int, seq<int>>

    ghost predicate Valid()
      reads this
    {
      Bounded(userRequests)
    }

    constructor ()
      ensures Valid() && userRequests == map[]
    {
      userRequests := map[];
    }

    /** Records a request of `userId` at time `now`, unless it is spam. */
    method CheckSpam(userId: int, now: int) returns (spam: bool)
      requires Valid()
      modifies this
      ensures Valid()
      ensures spam == IsSpam(old(userRequests), userId, now)
      ensures userRequests == After(old(userRequests), userId, now)
    {
      BoundedPreserved(userRequests, userId, now);
      if userId in userRequests {
        var requestTimes := userRequests[userId];
        while requestTimes != [] && Expired(requestTimes[0], now)
          invariant Prune(requestTimes, now) == Prune(old(userRequests)[userId], now)
          decreases |requestTimes|
        {
          requestTimes := requestTimes[1..];
        }
        assert requestTimes == Prune(old(userRequests)[userId], now);
        // the list is pruned in place, so the pruning stays even on a spam verdict
        userRequests := userRequests[userId := requestTimes];
        if |requestTimes| >= MaxRequests {
          return true;
        }
        requestTimes := requestTimes + [now];
        userRequests := userRequests[userId := requestTimes];
      } else {
        userRequests := userRequests[userId := [now]];
      }
      return false;
    }

    /** Throttles one inbound update: skipped without a user, a warning to the
        chat on spam, an activity record otherwise. */
    method ProcessEvent(event: Event, now: int) returns (action: Action)
      requires Valid()
      modifies this
      ensures Valid()
      ensures EventUser(event).None? ==> action == Skip && userRequests == old(userRequests)
      ensures EventUser(event).Some? ==>
                var user := EventUser(event).value;
                && userRequests == After(old(userRequests), user, now)
                && (IsSpam(old(userRequests), user, now) ==>
                      action == if WarnChat(event).Some? then Warn(WarnChat(event).value, TooManyRequests) else LogError)
                && (!IsSpam(old(userRequests), user, now) ==> action == LogActivity(user))
    {
      var user := EventUser(event);
      if user.None? {
        return Skip;
      }
      var spam := CheckSpam(user.value, now);
      if spam {
        var chat := WarnChat(event);
        if chat.None? {
          // reading the chat of a callback without a message raises, and the error is logged
          return LogError;
        }
        return Warn(chat.value, TooManyRequests);
      }
      return LogActivity(user.value);
    }
  }

  /** Five calls at 0..4 s are accepted, the sixth (5 s) and seventh (6 s) are
      spam and are not recorded, and a call at 31 s is accepted: the entry from
      0 s has expired while the one from 1 s, exactly 30 s old, is kept. */
  method BurstScenario(user: int) returns (verdicts: seq<bool>, history: seq<int>)
    ensures verdicts == [false, false, false, false, false, true, true, false]
    ensures history == [Second, 2 * Second, 3 * Second, 4 * Second, 31 * Second]
  {
    var m := new AntiSpamMiddleware();
    var full := [0, Second, 2 * Second, 3 * Second, 4 * Second];
    var v0 := m.CheckSpam(user, 0);
    assert full[..1] == [0];
    assert m.userRequests == Solo(user, full[..1]);
    var v1 := m.CheckSpam(user, Second);
    AcceptStep(user, full[..1], Second);
    assert full[..1] + [Second] == full[..2];
    var v2 := m.CheckSpam(user, 2 * Second);
    AcceptStep(user, full[..2], 2 * Second);
    assert full[..2] + [2 * Second] == full[..3];
    var v3 := m.CheckSpam(user, 3 * Second);
    AcceptStep(user, full[..3], 3 * Second);
    assert full[..3] + [3 * Second] == full[..4];
    var v4 := m.CheckSpam(user, 4 * Second);
    AcceptStep(user, full[..4], 4 * Second);
    assert full[..4] + [4 * Second] == full;
    var v5 := m.CheckSpam(user, 5 * Second);
    RejectStep(user, full, 5 * Second);
    var v6 := m.CheckSpam(user, 6 * Second);
    RejectStep(user, full, 6 * Second);
    var v7 := m.CheckSpam(user, 31 * Second);
    LateStep(user);
    verdicts := [v0, v1, v2, v3, v4, v5, v6, v7];
    history := m.userRequests[user];
  }
}
