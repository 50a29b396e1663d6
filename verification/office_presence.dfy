/** The live user list of hooks/use-virtual-office.tsx: users join by upsert on
    their id, leave by removal, and move by a position update. */
module OfficePresence {
  import opened Base

  function Mock(id: string, name: string, role: string, status: string, isActive: bool, mic: bool,
                video: bool, color: string, x: real, y: real): User
  {
    User(id, name, role, status, isActive, mic, Some(video), None, Some(color), Position(x, y))
  }

  /** The six demonstration users the mount effect installs. */
  function MockUsers(): (r: seq<User>)
    ensures |r| == 6 && Ids(r) == ["2", "3", "4", "5", "6", "7"]
    ensures DistinctIds(r)
  {
    var r := [
      Mock("2", "Jane Smith", "UX Designer", "Designing new components", true, true, true, "#9c27b0", 650.0, 350.0),
      Mock("3", "Bob Johnson", "Developer", "Fixing bugs", true, false, false, "#4caf50", 400.0, 450.0),
      Mock("4", "Alice Williams", "Project Manager", "In a meeting", true, true, true, "#ff9800", 800.0, 500.0),
      Mock("5", "Charlie Brown", "QA Engineer", "Out to lunch", false, false, false, "#f44336", 1200.0, 300.0),
      Mock("6", "Diana Prince", "Marketing", "Creating social media posts", true, true, false, "#00bcd4", 1000.0, 400.0),
      Mock("7", "Edward Stark", "CEO", "Available", true, false, false, "#795548", 1500.0, 350.0)];
    assert Ids(r) == ["2", "3", "4", "5", "6", "7"];
    r
  }

  /** `users.filter(u => u.id !== id)`. */
  function Without(users: seq<User>, id: string): (r: seq<User>)
    ensures |r| <= |users|
    ensures forall u :: u in r <==> u in users && u.id != id
    ensures |users| == 1 ==> r == if users[0].id != id then users else []
  {
    if users == [] then []
    else
      var init, u := users[..|users| - 1], users[|users| - 1];
      assert users == init + [u];
      if u.id != id then Without(init, id) + [u] else Without(init, id)
  }

  /** The filter keeps list order: removing from two lists one after the other
      leaves the first's survivors followed by the second's. */
  lemma {:induction false} WithoutAppend(a: seq<User>, b: seq<User>, id: string)
    ensures Without(a + b, id) == Without(a, id) + Without(b, id)
  {
    if b == [] {
      assert a + b == a;
    } else {
      var init := b[..|b| - 1];
      assert (a + b)[..|a + b| - 1] == a + init;
      WithoutAppend(a, init, id);
    }
  }

  /** After the removal no entry has the id, so a later connect appends. */
  lemma WithoutDropsId(users: seq<User>, id: string)
    ensures FindUser(Without(users, id), id).None?
  {
    var r := Without(users, id);
    assert forall j :: 0 <= j < |r| ==> r[j] in r;
  }

  /** Removing an id nobody has keeps the list as it is. */
  lemma {:induction false} WithoutAbsent(users: seq<User>, id: string)
    requires forall j :: 0 <= j < |users| ==> users[j].id != id
    ensures Without(users, id) == users
  {
    if users != [] {
      var init := users[..|users| - 1];
      WithoutAbsent(init, id);
      assert users == init + [users[|users| - 1]];
    }
  }

  /** `users.map(u => u.id === id ? { ...u, position } : u)`. */
  function MovedTo(users: seq<User>, id: string, position: Position): (r: seq<User>)
    ensures |r| == |users|
    ensures forall i :: 0 <= i < |users| ==>
      r[i] == if users[i].id == id then users[i].(position := position) else users[i]
  {
    if users == [] then []
    else
      var init, u := users[..|users| - 1], users[|users| - 1];
      MovedTo(init, id, position) + [if u.id == id then u.(position := position) else u]
  }

  class PresenceStore {
    var users: seq<User>
    var isConnected: bool

    /** The state once the mount effect has installed the demonstration users. */
    constructor()
      ensures users == MockUsers() && !isConnected
    {
      users := MockUsers();
      isConnected := false;
    }

    /** Replaces the first entry with the user's id in place, or appends the user. */
    method ConnectToOffice(user: User)
      modifies this
      ensures var k := FindUser(old(users), user.id);
        users == if k.Some? then old(users)[k.value := user] else old(users) + [user]
      ensures isConnected
      ensures user in users
      ensures DistinctIds(old(users)) ==> DistinctIds(users)
    {
      var existing := FindUser(users, user.id);
      if existing.Some? {
        users := users[existing.value := user];
        assert users[existing.value] == user;
      } else {
        users := users + [user];
        assert users[|users| - 1] == user;
      }
      isConnected := true;
    }

    /** Drops every entry with the id. */
    method DisconnectFromOffice(userId: string)
      modifies this
      ensures users == Without(old(users), userId)
      ensures !isConnected
    {
      users := Without(users, userId);
      isConnected := false;
    }

    /** The connect effect re-run for a changed user object: its cleanup drops
        every entry with the id, then the connect appends the user. */
    method Rejoin(user: User)
      modifies this
      ensures users == Without(old(users), user.id) + [user]
      ensures isConnected
    {
      DisconnectFromOffice(user.id);
      WithoutDropsId(old(users), user.id);
      ConnectToOffice(user);
    }

    method UpdateUserPosition(userId: string, position: Position)
      modifies this
      ensures users == MovedTo(old(users), userId, position)
      ensures isConnected == old(isConnected)
    {
      users := MovedTo(users, userId, position);
    }
  }

  /** A newcomer who connects and then disconnects leaves the list as it was. */
  method ConnectThenDisconnect(store: PresenceStore, user: User)
    requires forall j :: 0 <= j < |store.users| ==> store.users[j].id != user.id
    modifies store
    ensures store.users == old(store.users) && !store.isConnected
  {
    ghost var before := store.users;
    store.ConnectToOffice(user);
    assert store.users == before + [user];
    store.DisconnectFromOffice(user.id);
    WithoutAbsent(before, user.id);
    assert (before + [user])[..|before|] == before;
  }

  /** Reconnecting a present user keeps the list's length and every other entry. */
  lemma ReconnectKeepsOthers(users: seq<User>, user: User, k: nat)
    requires FindUser(users, user.id) == Some(k)
    ensures |users[k := user]| == |users|
    ensures forall j :: 0 <= j < |users| && j != k ==> users[k := user][j] == users[j]
    ensures Ids(users[k := user]) == Ids(users)
  {
    assert forall j :: 0 <= j < |users| ==> Ids(users[k := user])[j] == Ids(users)[j];
  }

  /** Moving a user changes no id, so the ids stay distinct. */
  lemma MovedToKeepsIds(users: seq<User>, id: string, position: Position)
    ensures Ids(MovedTo(users, id, position)) == Ids(users)
  {
    var r := MovedTo(users, id, position);
    assert forall j :: 0 <= j < |users| ==> Ids(r)[j] == Ids(users)[j];
  }
}
