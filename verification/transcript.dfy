/** The history handler: a user's stored turns grouped by chat, each chat a
    transcript of user/bot entries, chats in the order they are first met. */
module Transcript {
  import opened ChatLog
  import opened Context

  datatype Speaker = FromUser | FromBot

  /** One line of a displayed transcript. */
  datatype Entry = Entry(speaker: Speaker, text: string)

  /** One chat of the history response: its id and its transcript. */
  datatype Group = Group(chatId: int, messages: seq<Entry>)

  /** The two transcript lines of one turn. */
  function TurnLines(t: Turn): seq<Entry> {
    [Entry(FromUser, t.message), Entry(FromBot, t.response)]
  }

  /** The turns flattened to transcript lines, user line then bot line per turn. */
  function Lines(turns: seq<Turn>): (r: seq<Entry>)
    ensures |r| == 2 * |turns|
    ensures forall i :: 0 <= i < |turns| ==>
              r[2 * i] == Entry(FromUser, turns[i].message) &&
              r[2 * i + 1] == Entry(FromBot, turns[i].response)
  {
    if |turns| == 0 then []
    else
      var init := Lines(turns[..|turns| - 1]);
      var t := turns[|turns| - 1];
      assert forall i :: 0 <= i < |turns| - 1 ==> turns[i] == turns[..|turns| - 1][i];
      init + TurnLines(t)
  }

  /** Some turn belongs to the chat. */
  predicate HasChat(turns: seq<Turn>, chatId: int) {
    exists t :: t in turns && t.chatId == chatId
  }

  /** The chat ids of the turns in order of first appearance. */
  function ChatOrder(turns: seq<Turn>): seq<int>
  {
    if |turns| == 0 then []
    else
      var init := ChatOrder(turns[..|turns| - 1]);
      var t := turns[|turns| - 1];
      if t.chatId in init then init else init + [t.chatId]
  }

  /** The chat order lists exactly the chats that occur, each once. */
  lemma {:induction false} ChatOrderMembers(turns: seq<Turn>)
    ensures forall c :: c in ChatOrder(turns) <==> HasChat(turns, c)
    ensures var keys := ChatOrder(turns);
            forall i, j :: 0 <= i < j < |keys| ==> keys[i] != keys[j]
  {
    if |turns| > 0 {
      var init := turns[..|turns| - 1];
      var t := turns[|turns| - 1];
      assert turns == init + [t];
      ChatOrderMembers(init);
      ChatOrderSnoc(init, t);
      var prev := ChatOrder(init);
      forall c
        ensures c in ChatOrder(turns) <==> HasChat(turns, c)
      {
        assert c in ChatOrder(turns) <==> c in prev || c == t.chatId;
        if HasChat(turns, c) && c != t.chatId {
          var w :| w in turns && w.chatId == c;
          assert w in init;
        }
        if HasChat(init, c) {
          var w :| w in init && w.chatId == c;
          assert w in turns;
        }
        assert t in turns;
      }
    }
  }

  /** Scanning one more turn adds its chat to the order exactly when it is new. */
  lemma ChatOrderSnoc(turns: seq<Turn>, t: Turn)
    ensures ChatOrder(turns + [t]) ==
            if t.chatId in ChatOrder(turns) then ChatOrder(turns) else ChatOrder(turns) + [t.chatId]
  {
    assert (turns + [t])[..|turns|] == turns;
  }

  /** Chats are listed in order of first appearance and never reordered: the
      order after scanning any prefix of the turns is a prefix of the final
      order, later turns only adding new chats at the end. */
  lemma {:induction false} ChatOrderIsFirstEncounter(turns: seq<Turn>, p: nat)
    requires p <= |turns|
    ensures ChatOrder(turns[..p]) <= ChatOrder(turns)
  {
    if p < |turns| {
      var init := turns[..|turns| - 1];
      var t := turns[|turns| - 1];
      assert turns == init + [t];
      assert init[..p] == turns[..p];
      ChatOrderIsFirstEncounter(init, p);
      ChatOrderSnoc(init, t);
    } else {
      assert turns[..p] == turns;
    }
  }

  /** The transcript of one chat: the lines of that chat's turns in storage order. */
  function ChatLines(turns: seq<Turn>, chatId: int): seq<Entry> {
    Lines(Select(turns, ByChat(chatId)))
  }

  /** Reference definition of the grouping: one group per chat in first
      appearance order, holding the lines of that chat's turns in storage order. */
  function Grouped(turns: seq<Turn>): (r: seq<Group>)
    ensures |r| == |ChatOrder(turns)|
  {
    var keys := ChatOrder(turns);
    seq(|keys|, i requires 0 <= i < |keys| => Group(keys[i], ChatLines(turns, keys[i])))
  }

  /** Group `i` of the reference grouping. */
  lemma GroupedAt(turns: seq<Turn>, i: nat)
    requires i < |ChatOrder(turns)|
    ensures Grouped(turns)[i] == Group(ChatOrder(turns)[i], ChatLines(turns, ChatOrder(turns)[i]))
  {
  }

  /** Position of a chat among the groups, or the number of groups if absent
      (the dictionary lookup of `setdefault`). */
  function IndexOfChat(groups: seq<Group>, chatId: int): (j: nat)
    ensures j <= |groups|
    ensures j < |groups| ==> groups[j].chatId == chatId
    ensures j == |groups| ==> forall g :: g in groups ==> g.chatId != chatId
  {
    if |groups| == 0 then 0
    else if groups[0].chatId == chatId then 0
    else 1 + IndexOfChat(groups[1..], chatId)
  }

  /** Scanning one more turn adds its lines to its own chat's transcript only. */
  lemma ChatLinesSnoc(turns: seq<Turn>, t: Turn, c: int)
    ensures ChatLines(turns + [t], c) ==
            if c == t.chatId then ChatLines(turns, c) + TurnLines(t) else ChatLines(turns, c)
  {
    SelectSnoc(turns, t, ByChat(c));
    if c == t.chatId {
      var p := Select(turns, ByChat(c)) + [t];
      assert p[..|p| - 1] == Select(turns, ByChat(c));
    }
  }

  /** How the grouping changes when one more turn is scanned: the turn's lines
      go at the end of its chat's group, opening a new group last if the chat
      has not been seen. */
  lemma GroupedSnoc(turns: seq<Turn>, t: Turn)
    ensures var g := Grouped(turns);
            var j := IndexOfChat(g, t.chatId);
            Grouped(turns + [t]) ==
              if j < |g| then g[j := Group(t.chatId, g[j].messages + TurnLines(t))]
              else g + [Group(t.chatId, TurnLines(t))]
  {
    var g := Grouped(turns);
    var j := IndexOfChat(g, t.chatId);
    if j < |g| {
      GroupedAt(turns, j);
      GroupedSnocSeen(turns, t, j);
    } else {
      GroupedSnocUnseen(turns, t);
    }
  }

  /** A turn of an already seen chat extends that chat's group in place. */
  lemma GroupedSnocSeen(turns: seq<Turn>, t: Turn, j: nat)
    requires j < |ChatOrder(turns)| && ChatOrder(turns)[j] == t.chatId
    ensures var g := Grouped(turns);
            Grouped(turns + [t]) == g[j := Group(t.chatId, g[j].messages + TurnLines(t))]
  {
    var g := Grouped(turns);
    var h := Grouped(turns + [t]);
    var e := g[j := Group(t.chatId, g[j].messages + TurnLines(t))];
    ChatOrderSnoc(turns, t);
    assert |h| == |e|;
    forall i | 0 <= i < |h|
      ensures h[i] == e[i]
    {
      GroupedSnocSeenAt(turns, t, j, i);
    }
  }

  /** Group `i` after scanning a turn of the chat at position `j`. */
  lemma GroupedSnocSeenAt(turns: seq<Turn>, t: Turn, j: nat, i: nat)
    requires j < |ChatOrder(turns)| && ChatOrder(turns)[j] == t.chatId
    requires i < |ChatOrder(turns)|
    ensures Grouped(turns + [t])[i] ==
            if i == j then Group(t.chatId, Grouped(turns)[j].messages + TurnLines(t)) else Grouped(turns)[i]
  {
    var keys := ChatOrder(turns);
    ChatOrderSnoc(turns, t);
    assert ChatOrder(turns + [t]) == keys;
    GroupedAt(turns, i);
    GroupedAt(turns, j);
    GroupedAt(turns + [t], i);
    ChatLinesSnoc(turns, t, keys[i]);
    if i != j {
      ChatOrderMembers(turns);
      assert keys[i] != keys[j];
    }
  }

  /** A turn of a chat not seen before opens a new group at the end. */
  lemma GroupedSnocUnseen(turns: seq<Turn>, t: Turn)
    requires IndexOfChat(Grouped(turns), t.chatId) == |Grouped(turns)|
    ensures Grouped(turns + [t]) == Grouped(turns) + [Group(t.chatId, TurnLines(t))]
  {
    var keys := ChatOrder(turns);
    var g := Grouped(turns);
    var h := Grouped(turns + [t]);
    AbsentGroupIsUnseenChat(turns, t.chatId);
    ChatOrderSnoc(turns, t);
    assert ChatOrder(turns + [t]) == keys + [t.chatId];
    var e := g + [Group(t.chatId, TurnLines(t))];
    assert |h| == |e|;
    forall i | 0 <= i < |h|
      ensures h[i] == e[i]
    {
      GroupedAt(turns + [t], i);
      if i < |g| {
        GroupedAt(turns, i);
        ChatLinesSnoc(turns, t, keys[i]);
      } else {
        UnseenChatHasNoTurns(turns, t.chatId);
        ChatLinesSnoc(turns, t, t.chatId);
      }
    }
  }

  /** A chat the grouping has no group for is not in the chat order. */
  lemma AbsentGroupIsUnseenChat(turns: seq<Turn>, c: int)
    requires IndexOfChat(Grouped(turns), c) == |Grouped(turns)|
    ensures c !in ChatOrder(turns)
  {
    var keys := ChatOrder(turns);
    var g := Grouped(turns);
    forall i | 0 <= i < |keys|
      ensures keys[i] != c
    {
      GroupedAt(turns, i);
      assert g[i] in g;
    }
  }

  /** A chat missing from the order has an empty transcript. */
  lemma UnseenChatHasNoTurns(turns: seq<Turn>, c: int)
    requires c !in ChatOrder(turns)
    ensures ChatLines(turns, c) == []
  {
    ChatOrderMembers(turns);
    SelectMembers(turns, ByChat(c));
    if Select(turns, ByChat(c)) != [] {
      assert Select(turns, ByChat(c))[0] in Select(turns, ByChat(c));
    }
  }

  /** The history handler: the caller's turns in storage order, accumulated
      into an insertion-ordered dictionary from chat id to transcript lines. */
  method GetHistory(log: seq<Turn>, userId: int) returns (groups: seq<Group>)
    ensures groups == Grouped(Select(log, ByUser(userId)))
    ensures forall i, j :: 0 <= i < j < |groups| ==> groups[i].chatId != groups[j].chatId
    ensures forall t :: t in log && t.userId == userId ==> exists g :: g in groups && g.chatId == t.chatId
    ensures forall g :: g in groups ==> g.messages == Lines(Select(log, BySession(g.chatId, userId)))
  {
    var chats := Select(log, ByUser(userId));
    groups := [];
    var i := 0;
    while i < |chats|
      invariant 0 <= i <= |chats|
      invariant groups == Grouped(chats[..i])
    {
      var c := chats[i];
      ghost var before := groups;
      var j := IndexOfChat(groups, c.chatId);
      // setdefault(chat_id, []) followed by the user line and the bot line
      var existing := if j < |groups| then groups[j].messages else [];
      var updated := Group(c.chatId, existing + [Entry(FromUser, c.message)] + [Entry(FromBot, c.response)]);
      if j < |groups| {
        groups := groups[j := updated];
      } else {
        groups := groups + [updated];
      }
      ScanStep(chats[..i], c, before, groups);
      PrefixSnoc(chats, i);
      i := i + 1;
    }
    assert chats[..|chats|] == chats;
    HistoryChatsDistinct(log, userId);
    HistoryCoversUser(log, userId);
    HistoryIsSessionTranscripts(log, userId);
  }

  /** No chat has two groups. */
  lemma HistoryChatsDistinct(log: seq<Turn>, userId: int)
    ensures var groups := Grouped(Select(log, ByUser(userId)));
            forall i, j :: 0 <= i < j < |groups| ==> groups[i].chatId != groups[j].chatId
  {
    var chats := Select(log, ByUser(userId));
    var groups := Grouped(chats);
    ChatOrderMembers(chats);
    forall i, j | 0 <= i < j < |groups|
      ensures groups[i].chatId != groups[j].chatId
    {
      GroupedAt(chats, i);
      GroupedAt(chats, j);
    }
  }

  /** Every chat the user has a turn in has a group. */
  lemma HistoryCoversUser(log: seq<Turn>, userId: int)
    ensures var groups := Grouped(Select(log, ByUser(userId)));
            forall t :: t in log && t.userId == userId ==> exists g :: g in groups && g.chatId == t.chatId
  {
    var chats := Select(log, ByUser(userId));
    SelectMembers(log, ByUser(userId));
    forall t | t in log && t.userId == userId
      ensures exists g :: g in Grouped(chats) && g.chatId == t.chatId
    {
      assert t in chats;
      var k := GroupOf(chats, t);
      assert Grouped(chats)[k] in Grouped(chats);
    }
  }

  /** The position of the group a scanned turn lands in. */
  lemma GroupOf(turns: seq<Turn>, t: Turn) returns (k: nat)
    requires t in turns
    ensures k < |Grouped(turns)| && Grouped(turns)[k].chatId == t.chatId
  {
    var keys := ChatOrder(turns);
    ChatOrderMembers(turns);
    assert HasChat(turns, t.chatId);
    k :| 0 <= k < |keys| && keys[k] == t.chatId;
    GroupedAt(turns, k);
  }

  /** Each group is the transcript of the user's session in that chat. */
  lemma HistoryIsSessionTranscripts(log: seq<Turn>, userId: int)
    ensures forall g :: g in Grouped(Select(log, ByUser(userId))) ==>
              g.messages == Lines(Select(log, BySession(g.chatId, userId)))
  {
    var chats := Select(log, ByUser(userId));
    forall g | g in Grouped(chats)
      ensures g.messages == Lines(Select(log, BySession(g.chatId, userId)))
    {
      var i :| 0 <= i < |Grouped(chats)| && Grouped(chats)[i] == g;
      GroupedAt(chats, i);
      SelectTwice(log, userId, g.chatId);
    }
  }

  /** One iteration of the history loop re-establishes its invariant. */
  lemma ScanStep(scanned: seq<Turn>, c: Turn, before: seq<Group>, after: seq<Group>)
    requires before == Grouped(scanned)
    requires var j := IndexOfChat(before, c.chatId);
             var existing := if j < |before| then before[j].messages else [];
             var updated := Group(c.chatId, existing + [Entry(FromUser, c.message)] + [Entry(FromBot, c.response)]);
             after == if j < |before| then before[j := updated] else before + [updated]
    ensures after == Grouped(scanned + [c])
  {
    var j := IndexOfChat(before, c.chatId);
    var existing := if j < |before| then before[j].messages else [];
    TwoAppends(existing, c);
    GroupedSnoc(scanned, c);
  }

  /** Appending the user line and then the bot line appends the turn's lines. */
  lemma TwoAppends(existing: seq<Entry>, c: Turn)
    ensures existing + [Entry(FromUser, c.message)] + [Entry(FromBot, c.response)] == existing + TurnLines(c)
  {
  }

  /** A prefix one longer is the prefix with the next element appended. */
  lemma PrefixSnoc(s: seq<Turn>, i: nat)
    requires i < |s|
    ensures s[..i + 1] == s[..i] + [s[i]]
  {
  }

  /** Narrowing the user's turns to one chat selects that (chat, user) session. */
  lemma {:induction false} SelectTwice(log: seq<Turn>, userId: int, chatId: int)
    ensures Select(Select(log, ByUser(userId)), ByChat(chatId)) == Select(log, BySession(chatId, userId))
  {
    if |log| > 0 {
      var init := log[..|log| - 1];
      var t := log[|log| - 1];
      assert log == init + [t];
      SelectTwice(init, userId, chatId);
      SelectSnoc(init, t, ByUser(userId));
      SelectSnoc(init, t, BySession(chatId, userId));
      SelectSnoc(Select(init, ByUser(userId)), t, ByChat(chatId));
    }
  }

  /** A successful chat request appends the new turn's two lines to the end of
      that chat's transcript in the sender's history (opening a new chat at the
      end if it is the first turn of the chat); other users' histories do not change. */
  lemma ChatMessageExtendsHistory(log: seq<Turn>, chatId: int, userId: int, userMsg: string,
                                  generate: seq<Message> -> string, viewer: int)
    ensures var r := ChatMessage(log, chatId, userId, userMsg, generate, true);
            var t := r.log[|log|];
            var g := Grouped(Select(log, ByUser(viewer)));
            var j := IndexOfChat(g, chatId);
            Grouped(Select(r.log, ByUser(viewer))) ==
              if viewer != userId then g
              else if j < |g| then g[j := Group(chatId, g[j].messages + TurnLines(t))]
              else g + [Group(chatId, TurnLines(t))]
  {
    var r := ChatMessage(log, chatId, userId, userMsg, generate, true);
    var t := r.log[|log|];
    assert r.log == log + [t];
    SelectSnoc(log, t, ByUser(viewer));
    if viewer == userId {
      GroupedSnoc(Select(log, ByUser(viewer)), t);
    }
  }
}
