/** The chat and people tabs of components/virtual-office/side-panel.tsx: the
    message list scoped to the virtual time and the active dimension, sending a
    message, the people search and the marker for messages from another branch. */
module SidePanel {
  import opened Base
  import opened Text

  /** A chat message; the time is in milliseconds since the epoch. */
  datatype Message = Message(id: string, sender: string, content: string, timestamp: int, dimensionId: string)

  /** The three messages the panel starts with, stamped relative to its mount time. */
  function InitialMessages(now: int): (r: seq<Message>)
    ensures |r| == 3
    ensures forall i :: 0 <= i < 3 ==> r[i].dimensionId == "default" && r[i].timestamp <= now
  {
    [ Message("1", "System", "Welcome to the office chat!", now, "default"),
      Message("2", "John Doe", "Hey everyone, how's it going?", now - 300000, "default"),
      Message("3", "Jane Smith", "Working on the new homepage design", now - 120000, "default") ]
  }

  /** `currentDimension?.id || "default"`: the branch a sent message belongs to. */
  function SendKey(currentDimensionId: Option<string>): (r: string)
    ensures r != ""
    ensures r == "default" <==> currentDimensionId.None? || currentDimensionId.value in {"", "default"}
    ensures currentDimensionId.Some? && currentDimensionId.value != "" ==> r == currentDimensionId.value
  {
    match currentDimensionId
    case Some(id) => if id != "" then id else "default"
    case None => "default"
  }

  /** A message is shown when it is not in the virtual future and belongs to the
      active dimension or to the shared "default" one. */
  predicate Visible(m: Message, currentTime: int, currentDimensionId: Option<string>) {
    m.timestamp <= currentTime && (Some(m.dimensionId) == currentDimensionId || m.dimensionId == "default")
  }

  /** The "Alt" marker: a message from neither the shared nor the active dimension. */
  predicate AltMarker(m: Message, currentDimensionId: Option<string>) {
    m.dimensionId != "default" && Some(m.dimensionId) != currentDimensionId
  }

  /** A message is shown exactly when it is not in the virtual future and would
      not carry the "Alt" marker. */
  lemma VisibleUnlessAlt(m: Message, currentTime: int, currentDimensionId: Option<string>)
    ensures Visible(m, currentTime, currentDimensionId) <==> m.timestamp <= currentTime && !AltMarker(m, currentDimensionId)
  {
  }

  /** `messages.filter(...)` with the visibility test. */
  function FilteredMessages(messages: seq<Message>, currentTime: int, currentDimensionId: Option<string>): (r: seq<Message>)
    ensures |r| <= |messages|
    ensures forall m :: m in r <==> m in messages && Visible(m, currentTime, currentDimensionId)
    ensures |messages| == 1 ==>
      r == if Visible(messages[0], currentTime, currentDimensionId) then messages else []
  {
    if messages == [] then []
    else
      var init, m := messages[..|messages| - 1], messages[|messages| - 1];
      assert messages == init + [m];
      if Visible(m, currentTime, currentDimensionId) then FilteredMessages(init, currentTime, currentDimensionId) + [m]
      else FilteredMessages(init, currentTime, currentDimensionId)
  }

  /** The filter keeps the chat's order: the shown messages of a concatenation
      are those of the first part followed by those of the second. */
  lemma {:induction false} FilteredMessagesAppend(a: seq<Message>, b: seq<Message>, currentTime: int, currentDimensionId: Option<string>)
    ensures FilteredMessages(a + b, currentTime, currentDimensionId)
         == FilteredMessages(a, currentTime, currentDimensionId) + FilteredMessages(b, currentTime, currentDimensionId)
  {
    if b != [] {
      var init := b[..|b| - 1];
      assert (a + b)[..|a + b| - 1] == a + init;
      FilteredMessagesAppend(a, init, currentTime, currentDimensionId);
    } else {
      assert a + b == a;
    }
  }

  /** The "Alt" marker never shows: it asks for exactly what the filter excludes. */
  lemma VisibleNeverAlt(messages: seq<Message>, currentTime: int, currentDimensionId: Option<string>)
    ensures forall m :: m in FilteredMessages(messages, currentTime, currentDimensionId) ==> !AltMarker(m, currentDimensionId)
  {
  }

  /** A message sent now is shown at the end of the list, after those shown before. */
  lemma {:induction false} SentIsShownLast(messages: seq<Message>, m: Message, currentTime: int, currentDimensionId: Option<string>)
    requires m.timestamp == currentTime && m.dimensionId == SendKey(currentDimensionId)
    ensures FilteredMessages(messages + [m], currentTime, currentDimensionId)
         == FilteredMessages(messages, currentTime, currentDimensionId) + [m]
  {
    assert (messages + [m])[..|messages|] == messages;
  }

  /** When every message is visible the filter keeps the list as it is. */
  lemma {:induction false} AllVisibleShown(messages: seq<Message>, currentTime: int, currentDimensionId: Option<string>)
    requires forall i :: 0 <= i < |messages| ==> Visible(messages[i], currentTime, currentDimensionId)
    ensures FilteredMessages(messages, currentTime, currentDimensionId) == messages
  {
    if messages != [] {
      var init := messages[..|messages| - 1];
      AllVisibleShown(init, currentTime, currentDimensionId);
      assert messages == init + [messages[|messages| - 1]];
    }
  }

  /** Once the virtual time reaches the mount time all three starting messages show. */
  lemma InitialMessagesShown(now: int, currentTime: int, currentDimensionId: Option<string>)
    requires now <= currentTime
    ensures FilteredMessages(InitialMessages(now), currentTime, currentDimensionId) == InitialMessages(now)
  {
    AllVisibleShown(InitialMessages(now), currentTime, currentDimensionId);
  }

  /** `s.toLowerCase().includes(q.toLowerCase())`. */
  predicate MatchesQuery(s: string, query: string) {
    Contains(Lower(s), Lower(query))
  }

  /** A user is found by its name, its role or its status. */
  predicate UserMatches(u: User, query: string) {
    MatchesQuery(u.name, query) || MatchesQuery(u.role, query) || MatchesQuery(u.status, query)
  }

  /** `users.filter(...)` with the search test. */
  function FilteredUsers(users: seq<User>, query: string): (r: seq<User>)
    ensures |r| <= |users|
    ensures forall u :: u in r <==> u in users && UserMatches(u, query)
    ensures |users| == 1 ==> r == if UserMatches(users[0], query) then users else []
  {
    if users == [] then []
    else
      var init, u := users[..|users| - 1], users[|users| - 1];
      assert users == init + [u];
      if UserMatches(u, query) then FilteredUsers(init, query) + [u] else FilteredUsers(init, query)
  }

  /** The search keeps the people list's order: the matches of a concatenation
      are those of the first part followed by those of the second. */
  lemma {:induction false} FilteredUsersAppend(a: seq<User>, b: seq<User>, query: string)
    ensures FilteredUsers(a + b, query) == FilteredUsers(a, query) + FilteredUsers(b, query)
  {
    if b != [] {
      var init := b[..|b| - 1];
      assert (a + b)[..|a + b| - 1] == a + init;
      FilteredUsersAppend(a, init, query);
    } else {
      assert a + b == a;
    }
  }

  /** The empty search keeps everyone, in order. */
  lemma {:induction false} EmptyQueryKeepsAll(users: seq<User>)
    ensures FilteredUsers(users, "") == users
  {
    if users != [] {
      var init, u := users[..|users| - 1], users[|users| - 1];
      EmptyQueryKeepsAll(init);
      assert Lower("") == "";
      ContainsEmpty(Lower(u.name));
      assert users == init + [u];
    }
  }

  class Panel {
    var activeTab: string
    var message: string
    var messages: seq<Message>
    var searchQuery: string

    /** The panel as mounted at time `now`, on the tab it was opened with. */
    constructor(content: string, now: int)
      ensures activeTab == content && message == "" && searchQuery == ""
      ensures messages == InitialMessages(now)
    {
      activeTab := content;
      message := "";
      messages := InitialMessages(now);
      searchQuery := "";
    }

    /** Sends the typed text, unless it is blank: it is appended, stamped with the
        virtual time and the active branch, and the input is cleared. The id is
        the caller's wall-clock reading. */
    method HandleSendMessage(id: string, currentTime: int, currentDimensionId: Option<string>)
      modifies this
      ensures IsBlank(old(message)) ==> messages == old(messages) && message == old(message)
      ensures !IsBlank(old(message)) ==>
        && messages == old(messages) + [Message(id, "You", old(message), currentTime, SendKey(currentDimensionId))]
        && message == ""
      ensures activeTab == old(activeTab) && searchQuery == old(searchQuery)
    {
      if !IsBlank(message) {
        messages := messages + [Message(id, "You", message, currentTime, SendKey(currentDimensionId))];
        message := "";
      }
    }

    method SetMessage(text: string)
      modifies this
      ensures message == text
      ensures messages == old(messages) && activeTab == old(activeTab) && searchQuery == old(searchQuery)
    {
      message := text;
    }
  }

  /** What is sent is shown right away, last, without hiding anything shown before. */
  method SendThenShow(p: Panel, id: string, currentTime: int, currentDimensionId: Option<string>)
    requires !IsBlank(p.message)
    modifies p
    ensures |p.messages| == |old(p.messages)| + 1
    ensures FilteredMessages(p.messages, currentTime, currentDimensionId)
         == FilteredMessages(old(p.messages), currentTime, currentDimensionId) + [p.messages[|p.messages| - 1]]
    ensures p.messages[|p.messages| - 1].content == old(p.message) && p.message == ""
  {
    ghost var before := p.messages;
    p.HandleSendMessage(id, currentTime, currentDimensionId);
    SentIsShownLast(before, p.messages[|p.messages| - 1], currentTime, currentDimensionId);
  }
}
