/** The interaction glue of components/virtual-office/virtual-office.tsx: which
    user list is replayed, how arrow keys move the signed-in user, when moves and
    status changes are written to the event log, the side-panel toggle and the
    timeline's dimension filter. */
module OfficeView {
  import opened Base
  import opened Projection
  import opened TimeTravel
  import opened Forest
  import opened Dimensions
  import opened OfficePresence

  datatype Direction = Up | Down | Left | Right

  const MoveStep: real := 20.0

  /** The arrow keys of hooks/use-keyboard-navigation.tsx; any other key does nothing. */
  function KeyDirection(key: string): (r: Option<Direction>)
    ensures r == Some(Up) <==> key == "ArrowUp"
    ensures r == Some(Down) <==> key == "ArrowDown"
    ensures r == Some(Left) <==> key == "ArrowLeft"
    ensures r == Some(Right) <==> key == "ArrowRight"
  {
    if key == "ArrowUp" then Some(Up)
    else if key == "ArrowDown" then Some(Down)
    else if key == "ArrowLeft" then Some(Left)
    else if key == "ArrowRight" then Some(Right)
    else None
  }

  /** The position one keyboard step away; screen `y` grows downwards. */
  function StepPosition(p: Position, d: Direction): (r: Position)
    ensures (r.x == p.x && (r.y == p.y - MoveStep || r.y == p.y + MoveStep))
         || (r.y == p.y && (r.x == p.x - MoveStep || r.x == p.x + MoveStep))
    ensures d == Up || d == Down <==> r.x == p.x
    ensures r.y < p.y <==> d == Up
    ensures r.x < p.x <==> d == Left
  {
    match d
    case Up => p.(y := p.y - MoveStep)
    case Down => p.(y := p.y + MoveStep)
    case Left => p.(x := p.x - MoveStep)
    case Right => p.(x := p.x + MoveStep)
  }

  /** `currentDimension?.id || "default"`: the key of the stored snapshot. */
  function DataKey(current: Dimension): (r: string)
    ensures r != ""
    ensures current.id != "" ==> r == current.id
  {
    if current.id != "" then current.id else "default"
  }

  /** `dimensionData?.users || users`: a stored snapshot, even an empty one,
      wins over the live list, because an array is always truthy. */
  function ProjectionBase(snapshot: Option<seq<User>>, live: seq<User>): (r: seq<User>)
    ensures snapshot.Some? ==> r == snapshot.value
    ensures snapshot.None? ==> r == live
  {
    match snapshot
    case Some(users) => users
    case None => live
  }

  /** `timePoints.filter(tp => tp.dimensionId === currentDimension?.id)`. */
  function InDimension(log: seq<TimePoint>, id: string): (r: seq<TimePoint>)
    ensures |r| <= |log|
    ensures forall e :: e in r <==> e in log && e.dimensionId == Some(id)
    ensures |log| == 1 ==> r == if log[0].dimensionId == Some(id) then log else []
  {
    if log == [] then []
    else
      var init, e := log[..|log| - 1], log[|log| - 1];
      assert log == init + [e];
      if e.dimensionId == Some(id) then InDimension(init, id) + [e] else InDimension(init, id)
  }

  /** The filter keeps log order: the events of a concatenation are those of
      the first part followed by those of the second. */
  lemma {:induction false} InDimensionAppend(a: seq<TimePoint>, b: seq<TimePoint>, id: string)
    ensures InDimension(a + b, id) == InDimension(a, id) + InDimension(b, id)
  {
    if b != [] {
      var init := b[..|b| - 1];
      assert (a + b)[..|a + b| - 1] == a + init;
      InDimensionAppend(a, init, id);
    } else {
      assert a + b == a;
    }
  }

  /** Every cut of the log splits the timeline the same way. */
  lemma InDimensionOrder(log: seq<TimePoint>, id: string)
    ensures forall k :: 0 <= k <= |log| ==> InDimension(log, id) == InDimension(log[..k], id) + InDimension(log[k..], id)
  {
    forall k | 0 <= k <= |log|
      ensures InDimension(log, id) == InDimension(log[..k], id) + InDimension(log[k..], id)
    {
      assert log == log[..k] + log[k..];
      InDimensionAppend(log[..k], log[k..], id);
    }
  }

  /** The event the handlers record for the signed-in user. */
  function Recorded(now: int, u: User, position: Position, status: string, action: Action, dimensionId: string): TimePoint {
    TimePoint(now, u.id, position, status, action, Some(dimensionId))
  }

  /** The signed-in user of hooks/use-user.tsx once its mount effect has run. */
  function SignedInUser(): User {
    User("1", "John Doe", "Product Manager", "Working on the homepage", true, true, Some(false), None,
      Some("#2196f3"), Position(500.0, 300.0))
  }

  /** The signed-in user is none of the demonstration users, so connecting appends it. */
  lemma SignedInIsNotMock()
    ensures FindUser(MockUsers(), SignedInUser().id).None?
  {
    var ids := Ids(MockUsers());
    assert "1" !in ids;
    assert forall j :: 0 <= j < |ids| ==> ids[j] in ids;
  }

  class VirtualOffice {
    const clock: Clock
    const presence: PresenceStore
    const dims: DimensionManager
    var user: Option<User>
    var sidePanelContent: Option<string>

    /** The view once the mount effects of its hooks have run: the signed-in
        user is known and the demonstration users are listed. */
    constructor(now: int, createdNow: string, dayAgo: string, twoDaysAgo: string)
      ensures user == Some(SignedInUser()) && sidePanelContent == None
      ensures fresh(clock) && fresh(presence) && fresh(dims)
      ensures presence.users == MockUsers() && !presence.isConnected
      ensures dims.Valid() && clock.timePoints == [] && !clock.isRecording && !clock.isPaused
    {
      clock := new Clock(now);
      presence := new PresenceStore();
      dims := new DimensionManager(createdNow, dayAgo, twoDaysAgo);
      user := Some(SignedInUser());
      sidePanelContent := None;
    }

    /** The connect effect: a known user joins the live list. */
    method ConnectSignedIn()
      modifies presence
      ensures old(user).Some? ==>
        var u := old(user).value;
        var k := FindUser(old(presence.users), u.id);
        && presence.users == (if k.Some? then old(presence.users)[k.value := u] else old(presence.users) + [u])
        && presence.isConnected && u in presence.users
      ensures old(user).None? ==> presence.users == old(presence.users) && presence.isConnected == old(presence.isConnected)
    {
      if user.Some? {
        presence.ConnectToOffice(user.value);
      }
    }

    /** The users drawn at the clock's time: the replay of the log over the
        active dimension's snapshot, or over the live list when it has none. */
    function TimeAdjustedUsers(): (r: seq<User>)
      requires |dims.dimensions| > 0
      reads this, clock, presence, dims
      ensures var snapshot := dims.GetDimensionData(DataKey(dims.CurrentDimension()));
        var base := if snapshot.Some? then snapshot.value else presence.users;
        && (clock.timePoints == [] ==> r == base)
        && (clock.timePoints != [] ==> Ids(r) == Dedup(Ids(base)) && DistinctIds(r))
    {
      clock.UsersAtTime(clock.currentTime,
        ProjectionBase(dims.GetDimensionData(DataKey(dims.CurrentDimension())), presence.users))
    }

    /** The events the timeline shows: those recorded in the active dimension. */
    function TimelineEvents(): (r: seq<TimePoint>)
      requires |dims.dimensions| > 0
      reads this, clock, dims
      ensures forall e :: e in r <==> e in clock.timePoints && e.dimensionId == Some(dims.CurrentDimension().id)
      ensures forall k :: 0 <= k <= |clock.timePoints| ==>
        r == InDimension(clock.timePoints[..k], dims.CurrentDimension().id)
           + InDimension(clock.timePoints[k..], dims.CurrentDimension().id)
    {
      InDimensionOrder(clock.timePoints, dims.CurrentDimension().id);
      InDimension(clock.timePoints, dims.CurrentDimension().id)
    }

    /** An arrow key: unless paused or signed out, moves the signed-in user one
        step from the position `useUser` holds and records the move. */
    method OnMove(direction: Direction, now: int)
      requires |dims.dimensions| > 0
      modifies clock, presence
      ensures old(user).None? || old(clock.isPaused) ==>
        presence.users == old(presence.users) && clock.timePoints == old(clock.timePoints)
      ensures old(user).Some? && !old(clock.isPaused) ==>
        var u := old(user).value;
        var p := StepPosition(u.position, direction);
        && presence.users == MovedTo(old(presence.users), u.id, p)
        && clock.timePoints == old(clock.timePoints)
             + (if old(clock.isRecording) then [Recorded(now, u, p, u.status, Move, dims.CurrentDimension().id)] else [])
      ensures clock.currentTime == old(clock.currentTime) && clock.isPaused == old(clock.isPaused)
      ensures clock.isRecording == old(clock.isRecording) && clock.timeSpeed == old(clock.timeSpeed)
      ensures clock.lastUpdateTime == old(clock.lastUpdateTime)
      ensures presence.isConnected == old(presence.isConnected)
    {
      if user.Some? && !clock.isPaused {
        var u := user.value;
        var newPosition := StepPosition(u.position, direction);
        presence.UpdateUserPosition(u.id, newPosition);
        if clock.isRecording {
          clock.AddTimePoint(Recorded(now, u, newPosition, u.status, Move, dims.CurrentDimension().id));
        }
      }
    }

    /** A key press goes to `OnMove` for the four arrow keys only. */
    method OnKeyDown(key: string, now: int)
      requires |dims.dimensions| > 0
      modifies clock, presence
      ensures KeyDirection(key).None? || old(user).None? || old(clock.isPaused) ==>
        presence.users == old(presence.users) && clock.timePoints == old(clock.timePoints)
      ensures KeyDirection(key).Some? && old(user).Some? && !old(clock.isPaused) ==>
        var u := old(user).value;
        var p := StepPosition(u.position, KeyDirection(key).value);
        && presence.users == MovedTo(old(presence.users), u.id, p)
        && clock.timePoints == old(clock.timePoints)
             + (if old(clock.isRecording) then [Recorded(now, u, p, u.status, Move, dims.CurrentDimension().id)] else [])
      ensures clock.currentTime == old(clock.currentTime) && clock.isPaused == old(clock.isPaused)
      ensures clock.isRecording == old(clock.isRecording) && clock.timeSpeed == old(clock.timeSpeed)
      ensures clock.lastUpdateTime == old(clock.lastUpdateTime)
      ensures presence.isConnected == old(presence.isConnected)
    {
      match KeyDirection(key)
      case Some(d) => OnMove(d, now);
      case None =>
    }

    /** A drag: the live list always follows; the log records the move only
        while recording and only for the signed-in user. */
    method HandleUserPositionChange(userId: string, newPosition: Position, now: int)
      requires |dims.dimensions| > 0
      modifies clock, presence
      ensures presence.users == MovedTo(old(presence.users), userId, newPosition)
      ensures clock.timePoints == old(clock.timePoints)
        + (if old(clock.isRecording) && old(user).Some? && userId == old(user).value.id
           then [Recorded(now, old(user).value, newPosition, old(user).value.status, Move, dims.CurrentDimension().id)]
           else [])
      ensures clock.currentTime == old(clock.currentTime) && clock.isPaused == old(clock.isPaused)
      ensures clock.isRecording == old(clock.isRecording) && clock.timeSpeed == old(clock.timeSpeed)
      ensures clock.lastUpdateTime == old(clock.lastUpdateTime)
      ensures presence.isConnected == old(presence.isConnected)
    {
      presence.UpdateUserPosition(userId, newPosition);
      if clock.isRecording && user.Some? && userId == user.value.id {
        var u := user.value;
        clock.AddTimePoint(Recorded(now, u, newPosition, u.status, Move, dims.CurrentDimension().id));
      }
    }

    /** A status change: `useUser` takes it for the signed-in user only, and the
        log records it while recording. The new user object re-runs the connect
        effect: its cleanup drops every entry with the id, and the connect
        appends the user again, with the status and `useUser`'s position. */
    method HandleStatusChange(userId: string, status: string, now: int)
      requires |dims.dimensions| > 0
      modifies this, clock, presence
      ensures user == if old(user).Some? && old(user).value.id == userId
                      then Some(old(user).value.(status := status)) else old(user)
      ensures old(user).Some? && old(user).value.id == userId ==>
        && presence.users == Without(old(presence.users), userId) + [old(user).value.(status := status)]
        && presence.isConnected
      ensures old(user).None? || old(user).value.id != userId ==>
        presence.users == old(presence.users) && presence.isConnected == old(presence.isConnected)
      ensures clock.timePoints == old(clock.timePoints)
        + (if old(clock.isRecording) && old(user).Some? && userId == old(user).value.id
           then [Recorded(now, old(user).value, old(user).value.position, status, Status, dims.CurrentDimension().id)]
           else [])
      ensures sidePanelContent == old(sidePanelContent)
      ensures clock.currentTime == old(clock.currentTime) && clock.isPaused == old(clock.isPaused)
      ensures clock.isRecording == old(clock.isRecording) && clock.timeSpeed == old(clock.timeSpeed)
      ensures clock.lastUpdateTime == old(clock.lastUpdateTime)
    {
      var signedIn := user;
      if user.Some? && user.value.id == userId {
        user := Some(user.value.(status := status));
        presence.Rejoin(user.value);
      }
      if clock.isRecording && signedIn.Some? && userId == signedIn.value.id {
        var u := signedIn.value;
        clock.AddTimePoint(Recorded(now, u, u.position, status, Status, dims.CurrentDimension().id));
      }
    }

    /** Opening the open panel closes it; any other choice opens that panel. */
    method HandlePanelToggle(panel: Option<string>)
      modifies this
      ensures sidePanelContent == if panel == old(sidePanelContent) then None else panel
      ensures user == old(user)
    {
      sidePanelContent := if panel == sidePanelContent then None else panel;
    }
  }

  /** Toggling the same panel twice from closed leaves it closed, passing through open. */
  method TogglePanelTwice(v: VirtualOffice, panel: string)
    requires v.sidePanelContent == None
    modifies v
    ensures v.sidePanelContent == None
  {
    v.HandlePanelToggle(Some(panel));
    assert v.sidePanelContent == Some(panel);
    v.HandlePanelToggle(Some(panel));
  }

  /** A recorded move lands in the active dimension's timeline. */
  method RecordedMoveIsOnTimeline(v: VirtualOffice, direction: Direction, now: int)
    requires |v.dims.dimensions| > 0 && v.user.Some? && !v.clock.isPaused && v.clock.isRecording
    modifies v.clock, v.presence
    ensures |v.clock.timePoints| == |old(v.clock.timePoints)| + 1
    ensures v.clock.timePoints[|v.clock.timePoints| - 1] in v.TimelineEvents()
  {
    v.OnMove(direction, now);
  }

  /** At start-up the signed-in user joins at the end of the demonstration list. */
  method StartUp(now: int, createdNow: string, dayAgo: string, twoDaysAgo: string) returns (v: VirtualOffice)
    ensures fresh(v) && fresh(v.clock) && fresh(v.presence)
    ensures v.presence.users == MockUsers() + [SignedInUser()] && v.presence.isConnected
    ensures v.user == Some(SignedInUser()) && v.dims.Valid() && !v.clock.isPaused
  {
    v := new VirtualOffice(now, createdNow, dayAgo, twoDaysAgo);
    SignedInIsNotMock();
    v.presence.ConnectToOffice(SignedInUser());
  }

  /** A status change after a keyboard move: the re-run connect effect puts the
      signed-in user back at the end of the list, with the new status and at
      the position `useUser` holds, not the one the move reached. */
  method StatusChangeReconnects(now: int, createdNow: string, dayAgo: string, twoDaysAgo: string)
    returns (v: VirtualOffice)
    ensures v.presence.users == MockUsers() + [SignedInUser().(status := "Busy")] && v.presence.isConnected
  {
    v := StartUp(now, createdNow, dayAgo, twoDaysAgo);
    var u := SignedInUser();
    v.OnKeyDown("ArrowRight", now);
    var moved := u.(position := StepPosition(u.position, Right));
    SignedInIsNotMock();
    MovedAfterOthers(MockUsers(), u, moved.position);
    v.HandleStatusChange("1", "Busy", now);
    WithoutAfterOthers(MockUsers(), moved);
  }

  /** Moving the last user of a list whose other ids differ moves only it. */
  lemma MovedAfterOthers(others: seq<User>, u: User, p: Position)
    requires FindUser(others, u.id).None?
    ensures MovedTo(others + [u], u.id, p) == others + [u.(position := p)]
  {
    var r, want := MovedTo(others + [u], u.id, p), others + [u.(position := p)];
    assert forall i :: 0 <= i < |want| ==> r[i] == want[i];
  }

  /** Dropping the last user's id from such a list leaves the others. */
  lemma WithoutAfterOthers(others: seq<User>, u: User)
    requires FindUser(others, u.id).None?
    ensures Without(others + [u], u.id) == others
  {
    WithoutAppend(others, [u], u.id);
    WithoutAbsent(others, u.id);
  }
}