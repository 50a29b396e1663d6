/** The virtual clock and the event log of the time-travel hook
    (hooks/use-time-travel.tsx): the clock advances on each timer tick by the
    elapsed wall time scaled by the speed, stops while paused, and the log only grows. */
module TimeTravel {
  import opened Base
  import opened Projection

  /** `new Date(x)` keeps the integer part of `x`, rounding toward zero. */
  function Trunc(x: real): (r: int)
    ensures x >= 0.0 ==> r as real <= x < r as real + 1.0
    ensures x < 0.0 ==> r as real - 1.0 < x <= r as real
  {
    if x >= 0.0 then x.Floor else -((-x).Floor)
  }

  /** Truncation keeps the order of its arguments. */
  lemma TruncMonotone(x: real, y: real)
    requires x <= y
    ensures Trunc(x) <= Trunc(y)
  {
  }

  lemma TruncInt(n: int)
    ensures Trunc(n as real) == n
  {
  }

  /** The clock after one tick: `elapsed` milliseconds of wall time at `speed`. */
  function Advanced(time: int, elapsed: int, speed: real): (r: int)
    ensures -1.0 < r as real - (time as real + elapsed as real * speed) < 1.0
  {
    Trunc(time as real + elapsed as real * speed)
  }

  /** A tick forward in wall time at a non-negative speed never moves the clock back. */
  lemma AdvancedMonotone(time: int, elapsed: int, speed: real)
    requires elapsed >= 0 && speed >= 0.0
    ensures time <= Advanced(time, elapsed, speed)
  {
    assert elapsed as real * speed >= 0.0;
    TruncMonotone(time as real, time as real + elapsed as real * speed);
    TruncInt(time);
  }

  /** At normal speed a tick advances the clock by exactly the elapsed wall time. */
  lemma AdvancedAtNormalSpeed(time: int, elapsed: int)
    ensures Advanced(time, elapsed, 1.0) == time + elapsed
  {
    TruncInt(time + elapsed);
  }

  class Clock {
    var currentTime: int
    var timeSpeed: real
    var isRecording: bool
    var isPaused: bool
    var timePoints: seq<TimePoint>
    var lastUpdateTime: int

    /** The hook's initial state, with `now` standing for `Date.now()`. */
    constructor(now: int)
      ensures currentTime == now && lastUpdateTime == now
      ensures timeSpeed == 1.0 && !isRecording && !isPaused && timePoints == []
    {
      currentTime := now;
      timeSpeed := 1.0;
      isRecording := false;
      isPaused := false;
      timePoints := [];
      lastUpdateTime := now;
    }

    /** One firing of the interval timer at wall time `now`; no timer runs while paused. */
    method Tick(now: int)
      modifies this
      ensures old(isPaused) ==> unchanged(this)
      ensures !old(isPaused) ==>
        && currentTime == Advanced(old(currentTime), now - old(lastUpdateTime), timeSpeed)
        && lastUpdateTime == now
      ensures timeSpeed == old(timeSpeed) && isRecording == old(isRecording)
      ensures isPaused == old(isPaused) && timePoints == old(timePoints)
      ensures !old(isPaused) && now >= old(lastUpdateTime) && timeSpeed >= 0.0 ==> currentTime >= old(currentTime)
    {
      if !isPaused {
        var elapsed := now - lastUpdateTime;
        lastUpdateTime := now;
        if elapsed >= 0 && timeSpeed >= 0.0 {
          AdvancedMonotone(currentTime, elapsed, timeSpeed);
        }
        currentTime := Advanced(currentTime, elapsed, timeSpeed);
      }
    }

    method ToggleRecording()
      modifies this
      ensures isRecording == !old(isRecording)
      ensures currentTime == old(currentTime) && timeSpeed == old(timeSpeed) && isPaused == old(isPaused)
      ensures timePoints == old(timePoints) && lastUpdateTime == old(lastUpdateTime)
    {
      isRecording := !isRecording;
    }

    /** Flips the pause flag; resuming restarts the wall-time reference at `now`,
        so the paused interval is never caught up. */
    method TogglePause(now: int)
      modifies this
      ensures isPaused == !old(isPaused)
      ensures lastUpdateTime == if old(isPaused) then now else old(lastUpdateTime)
      ensures currentTime == old(currentTime) && timeSpeed == old(timeSpeed)
      ensures isRecording == old(isRecording) && timePoints == old(timePoints)
    {
      if isPaused {
        lastUpdateTime := now;
      }
      isPaused := !isPaused;
    }

    /** Appends one event at the end of the log. */
    method AddTimePoint(tp: TimePoint)
      modifies this
      ensures timePoints == old(timePoints) + [tp]
      ensures |timePoints| == |old(timePoints)| + 1 && timePoints[..|old(timePoints)|] == old(timePoints)
      ensures currentTime == old(currentTime) && timeSpeed == old(timeSpeed) && isPaused == old(isPaused)
      ensures isRecording == old(isRecording) && lastUpdateTime == old(lastUpdateTime)
    {
      timePoints := timePoints + [tp];
    }

    /** Moves the clock to the event's time and pauses. */
    method JumpToTimePoint(tp: TimePoint)
      modifies this
      ensures currentTime == tp.timestamp && isPaused
      ensures timeSpeed == old(timeSpeed) && isRecording == old(isRecording)
      ensures timePoints == old(timePoints) && lastUpdateTime == old(lastUpdateTime)
    {
      currentTime := tp.timestamp;
      isPaused := true;
    }

    method SetCurrentTime(time: int)
      modifies this
      ensures currentTime == time
      ensures timeSpeed == old(timeSpeed) && isRecording == old(isRecording) && isPaused == old(isPaused)
      ensures timePoints == old(timePoints) && lastUpdateTime == old(lastUpdateTime)
    {
      currentTime := time;
    }

    method SetTimeSpeed(speed: real)
      modifies this
      ensures timeSpeed == speed
      ensures currentTime == old(currentTime) && isRecording == old(isRecording) && isPaused == old(isPaused)
      ensures timePoints == old(timePoints) && lastUpdateTime == old(lastUpdateTime)
    {
      timeSpeed := speed;
    }

    /** The users as they stood at `time`, replayed from the current log. */
    function UsersAtTime(time: int, currentUsers: seq<User>): (r: seq<User>)
      reads this
      ensures timePoints == [] ==> r == currentUsers
      ensures timePoints != [] ==> Ids(r) == Dedup(Ids(currentUsers)) && DistinctIds(r)
    {
      if timePoints != [] then
        ProjectIds(timePoints, time, currentUsers);
        Project(timePoints, time, currentUsers)
      else
        Project(timePoints, time, currentUsers)
    }
  }

  /** A paused clock stays put however many ticks fire, and a jump pauses it:
      after a jump the clock shows the event's time until the next resume. */
  method JumpThenTicks(c: Clock, tp: TimePoint, nows: seq<int>)
    modifies c
    ensures c.currentTime == tp.timestamp && c.isPaused
    ensures c.timePoints == old(c.timePoints)
  {
    c.JumpToTimePoint(tp);
    for i := 0 to |nows|
      invariant c.currentTime == tp.timestamp && c.isPaused
      invariant c.timePoints == old(c.timePoints)
    {
      c.Tick(nows[i]);
    }
  }

  /** Recording an event stamped after `time` leaves the replay at `time` as it was. */
  method RecordLater(c: Clock, tp: TimePoint, time: int, users: seq<User>)
    requires c.timePoints != [] && tp.timestamp > time
    modifies c
    ensures c.UsersAtTime(time, users) == old(c.UsersAtTime(time, users))
  {
    c.AddTimePoint(tp);
    ProjectIgnoresLaterEvent(old(c.timePoints), tp, time, users);
  }
}
