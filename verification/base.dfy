/** Shared value types of the virtual office: optional values, plane positions,
    office occupants and the office floor plan (types/user.ts, types/office.ts). */
module Base {

  datatype Option<+T> = None | Some(value: T)
  {
    function GetOr(default: T): T {
      match this
      case Some(v) => v
      case None => default
    }
  }

  /** A point on the unbounded office plane; JavaScript numbers are modelled as reals. */
  datatype Position = Position(x: real, y: real)

  /** One occupant of the office. */
  datatype User = User(
    id: string,
    name: string,
    role: string,
    status: string,
    isActive: bool,
    isMicrophoneOn: bool,
    isVideoOn: Option<bool>,
    photoUrl: Option<string>,
    color: Option<string>,
    position: Position)

  datatype Furniture = Furniture(kind: string, x: real, y: real, width: Option<real>, height: Option<real>)

  datatype Wall = Wall(x: real, y: real, width: real, height: real)

  datatype ConversationZone = ConversationZone(name: string, x: real, y: real, radius: real)

  datatype OfficeArea = OfficeArea(
    id: string,
    name: string,
    position: Position,
    width: real,
    height: real,
    floorColor: Option<string>,
    walls: Option<seq<Wall>>,
    furniture: Option<seq<Furniture>>,
    conversationZones: Option<seq<ConversationZone>>)

  datatype Connection = Connection(x: real, y: real, width: real, height: real)

  datatype OfficeFloor = OfficeFloor(id: string, areas: seq<OfficeArea>, connections: Option<seq<Connection>>)

  /** The ids of a user list, position by position. */
  function Ids(users: seq<User>): (r: seq<string>)
    ensures |r| == |users|
    ensures forall i {:trigger r[i]} :: 0 <= i < |users| ==> r[i] == users[i].id
  {
    if users == [] then [] else Ids(users[..|users| - 1]) + [users[|users| - 1].id]
  }

  /** No id occurs twice. */
  ghost predicate DistinctIds(users: seq<User>) {
    forall i, j :: 0 <= i < j < |users| ==> users[i].id != users[j].id
  }

  /** `Array.prototype.findIndex` by id: the first position holding `id`. */
  function FindUser(users: seq<User>, id: string): (r: Option<nat>)
    ensures r.Some? ==> r.value < |users| && users[r.value].id == id
    ensures r.Some? ==> forall j :: 0 <= j < r.value ==> users[j].id != id
    ensures r.None? <==> forall j :: 0 <= j < |users| ==> users[j].id != id
  {
    if users == [] then None
    else if users[0].id == id then Some(0)
    else match FindUser(users[1..], id)
      case None => None
      case Some(k) => Some(k + 1)
  }

  lemma FindUserDistinct(users: seq<User>, i: nat)
    requires DistinctIds(users) && i < |users|
    ensures FindUser(users, users[i].id) == Some(i)
  {
  }

  /** The position of the first occurrence of `d` in a list of names. */
  function FirstIndex(names: seq<string>, d: string): (r: nat)
    requires d in names
    ensures r < |names| && names[r] == d
    ensures forall j :: 0 <= j < r ==> names[j] != d
  {
    if names[0] == d then 0 else 1 + FirstIndex(names[1..], d)
  }

  /** Appending never moves the first occurrence of a name already present. */
  lemma {:induction false} FirstIndexPrefix(init: seq<string>, last: string, d: string)
    requires d in init
    ensures FirstIndex(init + [last], d) == FirstIndex(init, d)
  {
    if init[0] != d {
      assert (init + [last])[1..] == init[1..] + [last];
      FirstIndexPrefix(init[1..], last, d);
    }
  }
}
