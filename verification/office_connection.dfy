/** The session-side office connection of hooks/use-virtual-office.ts: a user
    list whose entries carry optional fields, the connected user, and the
    connection flag. Leaving marks the user inactive instead of removing it. */
module OfficeConnection {
  import opened Base

  /** The hook's own user record; every field but id and name is optional. */
  datatype SessionUser = SessionUser(
    id: string,
    name: string,
    role: Option<string>,
    department: Option<string>,
    status: Option<string>,
    isActive: Option<bool>,
    position: Option<Position>)

  /** `{ ...old, ...user, isActive: true }`: the fields the new record carries
      win, the old entry keeps the rest, and the entry is active. */
  function Overlay(old_: SessionUser, user: SessionUser): SessionUser {
    SessionUser(user.id, user.name,
      if user.role.Some? then user.role else old_.role,
      if user.department.Some? then user.department else old_.department,
      if user.status.Some? then user.status else old_.status,
      Some(true),
      if user.position.Some? then user.position else old_.position)
  }

  /** Reconnecting with the same record changes nothing more, and a record
      that carries every field replaces the old entry outright. */
  lemma OverlayLaws(old_: SessionUser, user: SessionUser)
    ensures Overlay(Overlay(old_, user), user) == Overlay(old_, user)
    ensures user.role.Some? && user.department.Some? && user.status.Some? && user.position.Some? ==>
      Overlay(old_, user) == user.(isActive := Some(true))
    ensures Overlay(old_, user).id == user.id && Overlay(old_, user).isActive == Some(true)
  {
  }

  /** `users.findIndex(u => u.id === id)`, as an option. */
  function FindSession(users: seq<SessionUser>, id: string): (r: Option<nat>)
    ensures r.Some? ==> r.value < |users| && users[r.value].id == id
    ensures r.Some? ==> forall j :: 0 <= j < r.value ==> users[j].id != id
    ensures r.None? <==> forall j :: 0 <= j < |users| ==> users[j].id != id
  {
    if users == [] then None
    else if users[0].id == id then Some(0)
    else match FindSession(users[1..], id)
      case None => None
      case Some(k) => Some(k + 1)
  }

  /** `users.map(u => u.id === id ? { ...u, isActive: false } : u)`. */
  function MarkedInactive(users: seq<SessionUser>, id: string): (r: seq<SessionUser>)
    ensures |r| == |users|
    ensures forall i :: 0 <= i < |users| ==>
      r[i] == if users[i].id == id then users[i].(isActive := Some(false)) else users[i]
  {
    if users == [] then []
    else
      var init, u := users[..|users| - 1], users[|users| - 1];
      MarkedInactive(init, id) + [if u.id == id then u.(isActive := Some(false)) else u]
  }

  /** `users.map(u => u.id === id ? { ...u, position } : u)`. */
  function Repositioned(users: seq<SessionUser>, id: string, position: Position): (r: seq<SessionUser>)
    ensures |r| == |users|
    ensures forall i :: 0 <= i < |users| ==>
      r[i] == if users[i].id == id then users[i].(position := Some(position)) else users[i]
  {
    if users == [] then []
    else
      var init, u := users[..|users| - 1], users[|users| - 1];
      Repositioned(init, id, position) + [if u.id == id then u.(position := Some(position)) else u]
  }

  class Connection {
    var isConnected: bool
    var users: seq<SessionUser>
    var currentUser: Option<SessionUser>

    constructor()
      ensures !isConnected && users == [] && currentUser == None
    {
      isConnected := false;
      users := [];
      currentUser := None;
    }

    /** Records the user as the connected one and upserts it, active, by id. */
    method ConnectToOffice(user: SessionUser) returns (ok: bool)
      modifies this
      ensures ok
      ensures currentUser == Some(user) && isConnected
      ensures var k := FindSession(old(users), user.id);
        users == if k.Some? then old(users)[k.value := Overlay(old(users)[k.value], user)]
                 else old(users) + [user.(isActive := Some(true))]
    {
      currentUser := Some(user);
      isConnected := true;
      var existing := FindSession(users, user.id);
      if existing.Some? {
        users := users[existing.value := Overlay(users[existing.value], user)];
      } else {
        users := users + [user.(isActive := Some(true))];
      }
      ok := true;
    }

    /** With a connected user, marks its entries inactive and clears the
        connection; with none, changes nothing. Either way it reports success. */
    method DisconnectFromOffice() returns (ok: bool)
      modifies this
      ensures ok
      ensures old(currentUser).None? ==> users == old(users) && currentUser == None && isConnected == old(isConnected)
      ensures old(currentUser).Some? ==>
        && users == MarkedInactive(old(users), old(currentUser).value.id)
        && currentUser == None && !isConnected
    {
      if currentUser.Some? {
        users := MarkedInactive(users, currentUser.value.id);
        currentUser := None;
        isConnected := false;
      }
      ok := true;
    }

    /** Moves the matching entries, and the connected user when it is the one moved. */
    method UpdateUserPosition(userId: string, position: Position)
      modifies this
      ensures users == Repositioned(old(users), userId, position)
      ensures currentUser == if old(currentUser).Some? && old(currentUser).value.id == userId
                             then Some(old(currentUser).value.(position := Some(position)))
                             else old(currentUser)
      ensures isConnected == old(isConnected)
    {
      users := Repositioned(users, userId, position);
      if currentUser.Some? && currentUser.value.id == userId {
        currentUser := Some(currentUser.value.(position := Some(position)));
      }
    }
  }

  /** After connecting, the list holds exactly one more entry for a newcomer
      and the same number for a returning user, and the user's entry is active. */
  method ConnectedUserIsActive(c: Connection, user: SessionUser)
    modifies c
    ensures c.currentUser == Some(user) && c.isConnected
    ensures FindSession(c.users, user.id).Some?
    ensures c.users[FindSession(c.users, user.id).value].isActive == Some(true)
    ensures |c.users| == |old(c.users)| + (if FindSession(old(c.users), user.id).Some? then 0 else 1)
  {
    ghost var before := c.users;
    var _ := c.ConnectToOffice(user);
    match FindSession(before, user.id)
    case Some(k) =>
      assert c.users[k].id == user.id;
      assert forall j :: 0 <= j < k ==> c.users[j] == before[j];
    case None =>
      assert c.users[|before|].id == user.id;
      assert forall j :: 0 <= j < |before| ==> c.users[j] == before[j];
  }

  /** A connect then a disconnect leaves the user listed but inactive. */
  method ConnectThenDisconnect(c: Connection, user: SessionUser)
    modifies c
    ensures !c.isConnected && c.currentUser == None
    ensures forall i :: 0 <= i < |c.users| && c.users[i].id == user.id ==> c.users[i].isActive == Some(false)
    ensures exists i :: 0 <= i < |c.users| && c.users[i].id == user.id
  {
    ConnectedUserIsActive(c, user);
    ghost var k := FindSession(c.users, user.id).value;
    var _ := c.DisconnectFromOffice();
    assert c.users[k].id == user.id;
  }
}
