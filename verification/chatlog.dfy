/** The conversation history table: an append-only log of chat turns kept in
    ascending id order, the filters the handlers query it with, and the
    bounded window of recent turns the chat handler reads. */
module ChatLog {
  import opened Seqs

  /** How many stored turns the chat handler replays to the model. */
  const MAX_HISTORY: nat := 10

  /** One stored exchange: the user's message and the model's response. */
  datatype Turn = Turn(id: int, chatId: int, userId: int, message: string, response: string)

  /** A `WHERE` clause over the turn table. */
  datatype Selector =
    | ByUser(userId: int)
    | ByChat(chatId: int)
    | BySession(chatId: int, userId: int)
  {
    predicate Matches(t: Turn) {
      match this
      case ByUser(u) => t.userId == u
      case ByChat(c) => t.chatId == c
      case BySession(c, u) => t.chatId == c && t.userId == u
    }
  }

  /** The log invariant: ids strictly increase in storage order. */
  predicate WellOrdered(log: seq<Turn>) {
    forall i, j :: 0 <= i < j < |log| ==> log[i].id < log[j].id
  }

  /** The rows a `WHERE` clause selects, in storage order. */
  function Select(log: seq<Turn>, sel: Selector): (r: seq<Turn>)
    ensures |r| <= |log|
  {
    if |log| == 0 then []
    else
      var init := Select(log[..|log| - 1], sel);
      var t := log[|log| - 1];
      if sel.Matches(t) then init + [t] else init
  }

  /** A turn is selected exactly when it is in the log and matches. */
  lemma {:induction false} SelectMembers(log: seq<Turn>, sel: Selector)
    ensures forall t :: t in Select(log, sel) <==> t in log && sel.Matches(t)
  {
    if |log| > 0 {
      var init := log[..|log| - 1];
      var last := log[|log| - 1];
      assert log == init + [last];
      SelectMembers(init, sel);
    }
  }

  /** Selecting from a log with one more row adds that row exactly when it matches. */
  lemma SelectSnoc(log: seq<Turn>, t: Turn, sel: Selector)
    ensures Select(log + [t], sel) == if sel.Matches(t) then Select(log, sel) + [t] else Select(log, sel)
  {
    assert (log + [t])[..|log|] == log;
  }

  /** Filtering keeps the ascending id order of the log. */
  lemma {:induction false} SelectWellOrdered(log: seq<Turn>, sel: Selector)
    requires WellOrdered(log)
    ensures WellOrdered(Select(log, sel))
  {
    if |log| > 0 {
      var init := log[..|log| - 1];
      var t := log[|log| - 1];
      assert WellOrdered(init);
      SelectWellOrdered(init, sel);
      SelectMembers(init, sel);
      var r := Select(init, sel);
      forall i | 0 <= i < |r|
        ensures r[i].id < t.id
      {
        assert r[i] in init;
        var k :| 0 <= k < |init| && init[k] == r[i];
        assert log[k] == r[i];
      }
    }
  }

  /** The chat handler's history query: the turns of one (chat, user) pair
      ordered by id descending, limited to MAX_HISTORY, then reversed back to
      chronological order. On a well-ordered log, descending id order is the
      reverse of storage order. */
  function RecentTurns(log: seq<Turn>, chatId: int, userId: int): (r: seq<Turn>)
    ensures r == Last(Select(log, BySession(chatId, userId)), MAX_HISTORY)
    ensures |r| == Min(|Select(log, BySession(chatId, userId))|, MAX_HISTORY)
  {
    var session := Select(log, BySession(chatId, userId));
    var newestFirst := Reverse(session);
    var limited := Take(newestFirst, MAX_HISTORY);
    var chronological := Reverse(limited);
    ReverseTakeReverse(session, MAX_HISTORY);
    chronological
  }

  /** Every turn of the window is a stored turn of the requested chat and user. */
  lemma RecentTurnsFromSession(log: seq<Turn>, chatId: int, userId: int)
    ensures forall t :: t in RecentTurns(log, chatId, userId) ==>
              t in log && t.chatId == chatId && t.userId == userId
  {
    var m := Select(log, BySession(chatId, userId));
    var w := RecentTurns(log, chatId, userId);
    SelectMembers(log, BySession(chatId, userId));
    forall t | t in w
      ensures t in m
    {
      var i :| 0 <= i < |w| && w[i] == t;
      assert t == m[|m| - |w| + i];
    }
  }

  /** The window is exactly the newest `min(n, MAX_HISTORY)` turns of the
      session, oldest first: it is the tail of the session's turns, its ids
      increase, and every session turn left out is older than every turn kept. */
  lemma RecentTurnsAreNewest(log: seq<Turn>, chatId: int, userId: int)
    requires WellOrdered(log)
    ensures var m := Select(log, BySession(chatId, userId));
            var w := RecentTurns(log, chatId, userId);
            && w == m[|m| - |w|..]
            && WellOrdered(w)
            && forall i, j :: 0 <= i < |m| - |w| && 0 <= j < |w| ==> m[i].id < w[j].id
  {
    var m := Select(log, BySession(chatId, userId));
    var w := RecentTurns(log, chatId, userId);
    var k := Min(|m|, MAX_HISTORY);
    assert w == m[|m| - k..];
    SelectWellOrdered(log, BySession(chatId, userId));
    TailOfWellOrdered(m, k);
    forall i, j | 0 <= i < |m| - k && 0 <= j < k
      ensures m[i].id < w[j].id
    {
      assert w[j] == m[|m| - k + j];
    }
  }

  /** A tail of a well-ordered log is well ordered and newer than the rest. */
  lemma TailOfWellOrdered(m: seq<Turn>, k: nat)
    requires WellOrdered(m) && k <= |m|
    ensures WellOrdered(m[|m| - k..])
    ensures forall i, j :: 0 <= i < |m| - k <= j < |m| ==> m[i].id < m[j].id
  {
    var w := m[|m| - k..];
    forall i, j | 0 <= i < j < |w|
      ensures w[i].id < w[j].id
    {
      assert w[i] == m[|m| - k + i] && w[j] == m[|m| - k + j];
    }
  }

  /** The id the table assigns to the next inserted row. */
  function NextTurnId(log: seq<Turn>): (id: int)
    ensures WellOrdered(log) ==> forall t :: t in log ==> t.id < id
  {
    if |log| == 0 then 1 else log[|log| - 1].id + 1
  }

  /** Inserting a row with a fresh id keeps the log well ordered. */
  function Insert(log: seq<Turn>, chatId: int, userId: int, message: string, response: string): (r: seq<Turn>)
    ensures |r| == |log| + 1 && r[..|log|] == log
    ensures var t := r[|log|];
            t.chatId == chatId && t.userId == userId && t.message == message && t.response == response
    ensures WellOrdered(log) ==> forall t :: t in log ==> t.id < r[|log|].id
    ensures WellOrdered(log) ==> WellOrdered(r)
  {
    log + [Turn(NextTurnId(log), chatId, userId, message, response)]
  }
}
