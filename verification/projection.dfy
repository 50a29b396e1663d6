/** The replay of the time-travel event log (hooks/use-time-travel.tsx, getUsersAtTime):
    the users as they stood at a virtual time, reconstructed from a base list and the
    append-only log of timestamped move and status events. */
module Projection {
  import opened Base

  datatype Action = Move | Status | Join | Leave

  /** One logged event; timestamps are integer milliseconds (`Date.getTime()`). */
  datatype TimePoint = TimePoint(
    timestamp: int,
    userId: string,
    position: Position,
    status: string,
    action: Action,
    dimensionId: Option<string>)

  // ---------------------------------------------------------------------------
  // Step 1: keep the events at or before the target time.

  /** The events of `log` whose timestamp is at or before `t`, in log order. */
  function Due(log: seq<TimePoint>, t: int): (r: seq<TimePoint>)
    ensures |r| <= |log|
    ensures forall e :: e in r <==> e in log && e.timestamp <= t
    ensures |log| == 1 ==> r == if log[0].timestamp <= t then log else []
  {
    if log == [] then []
    else
      var init, e := log[..|log| - 1], log[|log| - 1];
      assert log == init + [e];
      if e.timestamp <= t then Due(init, t) + [e] else Due(init, t)
  }

  /** The filter keeps log order: the due events of two logs one after the other
      are those of the first followed by those of the second. */
  lemma {:induction false} DueAppend(a: seq<TimePoint>, b: seq<TimePoint>, t: int)
    ensures Due(a + b, t) == Due(a, t) + Due(b, t)
  {
    if b == [] {
      assert a + b == a;
    } else {
      var init := b[..|b| - 1];
      assert (a + b)[..|a + b| - 1] == a + init;
      DueAppend(a, init, t);
    }
  }

  /** With no event in the interval (t1, t2], both cut-offs keep the same events. */
  lemma {:induction false} DueConstantBetween(log: seq<TimePoint>, t1: int, t2: int)
    requires t1 <= t2
    requires forall e :: e in log ==> !(t1 < e.timestamp <= t2)
    ensures Due(log, t1) == Due(log, t2)
  {
    if log != [] {
      var init := log[..|log| - 1];
      assert forall e :: e in init ==> e in log;
      DueConstantBetween(init, t1, t2);
    }
  }

  // ---------------------------------------------------------------------------
  // Step 2: the stable sort by ascending timestamp.

  ghost predicate SortedByTime(s: seq<TimePoint>) {
    forall i, j :: 0 <= i < j < |s| ==> s[i].timestamp <= s[j].timestamp
  }

  /** Where a stable sort puts an event that comes later in the log than every event
      of the sorted `s`: after each event whose timestamp is not above its own. */
  function InsertPos(s: seq<TimePoint>, e: TimePoint): (k: nat)
    ensures k <= |s|
    ensures forall j :: 0 <= j < k ==> s[j].timestamp <= e.timestamp
    ensures k < |s| ==> s[k].timestamp > e.timestamp
  {
    if s == [] then 0
    else if s[0].timestamp > e.timestamp then 0
    else 1 + InsertPos(s[1..], e)
  }

  function Insert(s: seq<TimePoint>, e: TimePoint): seq<TimePoint> {
    var k := InsertPos(s, e);
    s[..k] + [e] + s[k..]
  }

  lemma InsertKeepsOrder(s: seq<TimePoint>, e: TimePoint)
    requires SortedByTime(s)
    ensures SortedByTime(Insert(s, e))
    ensures multiset(Insert(s, e)) == multiset(s) + multiset{e}
  {
    var k := InsertPos(s, e);
    var r := Insert(s, e);
    assert s == s[..k] + s[k..];
    forall j | k <= j < |s| ensures s[j].timestamp > e.timestamp {
      assert s[k].timestamp <= s[j].timestamp;
    }
    forall i, j | 0 <= i < j < |r| ensures r[i].timestamp <= r[j].timestamp {
      if j < k || i > k {
      } else if i == k {
        assert r[j] == s[j - 1];
      } else if j == k {
        assert r[i] == s[i];
      } else {
        assert r[i] == s[i] && r[j] == s[j - 1];
      }
    }
  }

  /** `Array.prototype.sort` by ascending timestamp, stable on ties: an insertion
      sort that puts each later event of the log after the earlier ones it ties with. */
  function SortByTime(s: seq<TimePoint>): (r: seq<TimePoint>)
    ensures |r| == |s|
    ensures SortedByTime(r)
    ensures multiset(r) == multiset(s)
  {
    if s == [] then []
    else
      var init, e := s[..|s| - 1], s[|s| - 1];
      assert s == init + [e];
      InsertKeepsOrder(SortByTime(init), e);
      Insert(SortByTime(init), e)
  }

  // ---------------------------------------------------------------------------
  // Step 3: the working map, keyed by user id, in first-insertion order.

  /** `Map.set(u.id, u)`: replaces the value of an existing key in place, else appends. */
  function Put(m: seq<User>, u: User): (r: seq<User>)
    ensures DistinctIds(m) ==> DistinctIds(r)
    ensures u in r
  {
    match FindUser(m, u.id)
    case Some(i) => assert m[i := u][i] == u; m[i := u]
    case None => assert (m + [u])[|m|] == u; m + [u]
  }

  /** `set` adds the key at the end exactly when it is new. */
  lemma PutIds(m: seq<User>, u: User)
    ensures Ids(Put(m, u)) == if u.id in Ids(m) then Ids(m) else Ids(m) + [u.id]
  {
    match FindUser(m, u.id)
    case Some(k) =>
      assert Ids(m)[k] == u.id;
      assert Ids(Put(m, u)) == Ids(m);
    case None =>
      assert u.id !in Ids(m);
      assert Ids(Put(m, u)) == Ids(m) + [u.id];
  }

  /** After `set`, the entry under the key is the new value and every other entry
      is the one at the same place before. */
  lemma PutAt(m: seq<User>, u: User, i: nat)
    requires DistinctIds(m) && i < |Put(m, u)|
    ensures Put(m, u)[i].id == u.id ==> Put(m, u)[i] == u
    ensures Put(m, u)[i].id != u.id ==> i < |m| && Put(m, u)[i] == m[i]
  {
  }

  /** The ids of `s` with every repeat after the first occurrence dropped: each
      id once, in the order of first occurrence. */
  function Dedup(s: seq<string>): (r: seq<string>)
    ensures forall x :: x in r <==> x in s
    ensures forall i, j :: 0 <= i < j < |r| ==> r[i] != r[j]
    ensures forall i, j :: 0 <= i < j < |r| ==> FirstIndex(s, r[i]) < FirstIndex(s, r[j])
  {
    if s == [] then []
    else
      var init, x := s[..|s| - 1], s[|s| - 1];
      assert s == init + [x];
      var d := Dedup(init);
      assert forall y :: y in init ==> FirstIndex(s, y) == FirstIndex(init, y) by {
        forall y | y in init ensures FirstIndex(s, y) == FirstIndex(init, y) {
          FirstIndexPrefix(init, x, y);
        }
      }
      if x in d then d else d + [x]
  }

  /** The last user of `base` with the given id. */
  function LastById(base: seq<User>, id: string): (r: Option<User>)
    ensures r.Some? ==> r.value in base && r.value.id == id
  {
    if base == [] then None
    else if base[|base| - 1].id == id then Some(base[|base| - 1])
    else LastById(base[..|base| - 1], id)
  }

  /** The map seeded with copies of the base users. */
  function Seed(base: seq<User>): (r: seq<User>)
    ensures DistinctIds(r)
  {
    if base == [] then [] else Put(Seed(base[..|base| - 1]), base[|base| - 1])
  }

  /** The map holds each base id once, in the order of first occurrence. */
  lemma {:induction false} SeedIds(base: seq<User>)
    ensures Ids(Seed(base)) == Dedup(Ids(base))
  {
    if base != [] {
      var init, u := base[..|base| - 1], base[|base| - 1];
      assert base == init + [u];
      assert Ids(base) == Ids(init) + [u.id];
      assert Ids(base)[..|Ids(base)| - 1] == Ids(init);
      SeedIds(init);
      PutIds(Seed(init), u);
    }
  }

  /** Each entry of the map is the last base user with its id. */
  lemma {:induction false} SeedLast(base: seq<User>, i: nat)
    requires i < |Seed(base)|
    ensures LastById(base, Seed(base)[i].id) == Some(Seed(base)[i])
  {
    var init, u := base[..|base| - 1], base[|base| - 1];
    PutAt(Seed(init), u, i);
    if Seed(base)[i].id != u.id {
      SeedLast(init, i);
    }
  }

  // ---------------------------------------------------------------------------
  // Step 4: the fold of the sorted events into the map.

  /** One event of the `forEach`: a move replaces the user's position, a status
      event its status; unknown users and other actions leave the map alone. */
  function Step(m: seq<User>, e: TimePoint): (r: seq<User>)
    ensures |r| == |m| && Ids(r) == Ids(m)
    ensures e.action == Join || e.action == Leave || e.userId !in Ids(m) ==> r == m
    ensures forall i :: 0 <= i < |m| && m[i].id != e.userId ==> r[i] == m[i]
  {
    match FindUser(m, e.userId)
    case None => m
    case Some(i) =>
      assert Ids(m)[i] == e.userId;
      match e.action
      case Move => m[i := m[i].(position := e.position)]
      case Status => m[i := m[i].(status := e.status)]
      case _ => m
  }

  /** The events folded in left to right. */
  function Apply(m: seq<User>, evs: seq<TimePoint>): (r: seq<User>)
    ensures |r| == |m| && Ids(r) == Ids(m)
  {
    if evs == [] then m else Step(Apply(m, evs[..|evs| - 1]), evs[|evs| - 1])
  }

  /** The projection of `base` onto virtual time `t`. An empty log gives back the
      caller's own list; otherwise the result holds one entry per distinct base id. */
  function Project(log: seq<TimePoint>, t: int, base: seq<User>): (r: seq<User>)
    ensures log == [] ==> r == base
    ensures log != [] ==> |r| == |Seed(base)| && Ids(r) == Ids(Seed(base))
  {
    if log == [] then base else Apply(Seed(base), SortByTime(Due(log, t)))
  }

  /** `getUsersAtTime` as wired: the callback is memoised with an empty dependency
      list, so it keeps the log of the first render, which is empty, whatever the
      current log holds. */
  function UsersAtTimeAsWired(log: seq<TimePoint>, t: int, base: seq<User>): (r: seq<User>)
    ensures r == base
  {
    Project([], t, base)
  }

  // ---------------------------------------------------------------------------
  // What the replay computes.

  /** The last event of `evs`, in sequence order, for user `id` with action `a`. */
  function LastOf(evs: seq<TimePoint>, id: string, a: Action): (r: Option<TimePoint>)
    ensures r.Some? ==> r.value in evs && r.value.userId == id && r.value.action == a
  {
    if evs == [] then None
    else
      var e := evs[|evs| - 1];
      if e.userId == id && e.action == a then Some(e) else LastOf(evs[..|evs| - 1], id, a)
  }

  predicate Matches(e: TimePoint, id: string, a: Action) {
    e.userId == id && e.action == a
  }

  /** Position `k` holds the latest event of `evs` for `id` with action `a`: no
      such event has a later timestamp, and those after it in the log have earlier ones. */
  ghost predicate IsLatest(evs: seq<TimePoint>, id: string, a: Action, k: nat) {
    && k < |evs| && Matches(evs[k], id, a)
    && (forall j :: 0 <= j < |evs| && Matches(evs[j], id, a) ==> evs[j].timestamp <= evs[k].timestamp)
    && (forall j :: k < j < |evs| && Matches(evs[j], id, a) ==> evs[j].timestamp < evs[k].timestamp)
  }

  /** The position in `evs` of the event for `id` with action `a` that has the
      greatest timestamp, the one later in `evs` on a tie. */
  function LatestIndex(evs: seq<TimePoint>, id: string, a: Action): (r: Option<nat>)
    ensures r.Some? ==> IsLatest(evs, id, a, r.value)
    ensures r.None? ==> forall j :: 0 <= j < |evs| ==> !Matches(evs[j], id, a)
  {
    if evs == [] then None
    else
      var init, e := evs[..|evs| - 1], evs[|evs| - 1];
      var p := LatestIndex(init, id, a);
      LatestIndexStep(evs, id, a, p);
      if Matches(e, id, a) && (p.None? || init[p.value].timestamp <= e.timestamp) then Some(|evs| - 1) else p
  }

  lemma LatestIndexStep(evs: seq<TimePoint>, id: string, a: Action, p: Option<nat>)
    requires evs != []
    requires p.Some? ==> IsLatest(evs[..|evs| - 1], id, a, p.value)
    requires p.None? ==> forall j :: 0 <= j < |evs| - 1 ==> !Matches(evs[j], id, a)
    ensures var n := |evs| - 1;
      var r := if Matches(evs[n], id, a) && (p.None? || evs[..n][p.value].timestamp <= evs[n].timestamp) then Some(n) else p;
      && (r.Some? ==> IsLatest(evs, id, a, r.value))
      && (r.None? ==> forall j :: 0 <= j < |evs| ==> !Matches(evs[j], id, a))
  {
    var n := |evs| - 1;
    var init := evs[..n];
    assert forall j :: 0 <= j < n ==> init[j] == evs[j];
  }

  /** The latest event for `id` with action `a`, as defined by `LatestIndex`. */
  function Latest(evs: seq<TimePoint>, id: string, a: Action): (r: Option<TimePoint>)
    ensures r.Some? ==> r.value in evs && Matches(r.value, id, a)
  {
    match LatestIndex(evs, id, a)
    case Some(k) => Some(evs[k])
    case None => None
  }

  lemma LatestIsUnique(evs: seq<TimePoint>, id: string, a: Action, k1: nat, k2: nat)
    requires IsLatest(evs, id, a, k1) && IsLatest(evs, id, a, k2)
    ensures k1 == k2
  {
  }

  lemma {:induction false} LastOfConcat(xs: seq<TimePoint>, ys: seq<TimePoint>, id: string, a: Action)
    ensures LastOf(xs + ys, id, a) == if LastOf(ys, id, a).Some? then LastOf(ys, id, a) else LastOf(xs, id, a)
  {
    if ys == [] {
      assert xs + ys == xs;
    } else {
      var ys' := ys[..|ys| - 1];
      assert (xs + ys)[..|xs + ys| - 1] == xs + ys';
      LastOfConcat(xs, ys', id, a);
    }
  }

  /** Everything a stable insertion puts after `e` has a strictly greater timestamp. */
  lemma InsertPosSuffix(sorted: seq<TimePoint>, e: TimePoint)
    requires SortedByTime(sorted)
    ensures forall j :: InsertPos(sorted, e) <= j < |sorted| ==> sorted[j].timestamp > e.timestamp
  {
    var k := InsertPos(sorted, e);
    forall j | k <= j < |sorted| ensures sorted[j].timestamp > e.timestamp {
      assert sorted[k].timestamp <= sorted[j].timestamp;
    }
  }

  /** A match after the insertion point stays the last match and outdates `e`. */
  lemma LastOfInsertBehind(sorted: seq<TimePoint>, e: TimePoint, id: string, a: Action)
    requires forall j :: InsertPos(sorted, e) <= j < |sorted| ==> sorted[j].timestamp > e.timestamp
    requires LastOf(sorted[InsertPos(sorted, e)..], id, a).Some?
    ensures LastOf(Insert(sorted, e), id, a) == LastOf(sorted, id, a)
    ensures LastOf(sorted, id, a).Some? && LastOf(sorted, id, a).value.timestamp > e.timestamp
  {
    var k := InsertPos(sorted, e);
    var xs, ys := sorted[..k], sorted[k..];
    assert Insert(sorted, e) == (xs + [e]) + ys;
    assert sorted == xs + ys;
    LastOfConcat(xs + [e], ys, id, a);
    LastOfConcat(xs, ys, id, a);
    SuffixLater(sorted, e, LastOf(ys, id, a).value);
  }

  /** An event after the insertion point is later than the inserted one. */
  lemma SuffixLater(sorted: seq<TimePoint>, e: TimePoint, b: TimePoint)
    requires forall j :: InsertPos(sorted, e) <= j < |sorted| ==> sorted[j].timestamp > e.timestamp
    requires b in sorted[InsertPos(sorted, e)..]
    ensures b.timestamp > e.timestamp
  {
    var k := InsertPos(sorted, e);
    var j :| 0 <= j < |sorted| - k && sorted[k..][j] == b;
    assert sorted[k + j] == b;
  }

  /** With no match after the insertion point, `e` becomes the last match if it is
      one, and every earlier match has a timestamp not above its own. */
  lemma LastOfInsertAhead(sorted: seq<TimePoint>, e: TimePoint, id: string, a: Action)
    requires forall j :: InsertPos(sorted, e) <= j < |sorted| ==> sorted[j].timestamp > e.timestamp
    requires LastOf(sorted[InsertPos(sorted, e)..], id, a).None?
    ensures LastOf(Insert(sorted, e), id, a) == if Matches(e, id, a) then Some(e) else LastOf(sorted, id, a)
    ensures LastOf(sorted, id, a).Some? ==> LastOf(sorted, id, a).value.timestamp <= e.timestamp
  {
    var k := InsertPos(sorted, e);
    var xs, ys := sorted[..k], sorted[k..];
    assert Insert(sorted, e) == (xs + [e]) + ys;
    assert sorted == xs + ys;
    LastOfConcat(xs + [e], ys, id, a);
    LastOfConcat(xs, ys, id, a);
    LastOfSnoc(xs, e, id, a);
    PrefixNotLater(sorted, e, LastOf(xs, id, a));
  }

  /** The last match after appending one event. */
  lemma LastOfSnoc(xs: seq<TimePoint>, e: TimePoint, id: string, a: Action)
    ensures LastOf(xs + [e], id, a) == if Matches(e, id, a) then Some(e) else LastOf(xs, id, a)
  {
    assert (xs + [e])[..|xs|] == xs;
  }

  /** An event before the insertion point is not later than the inserted one. */
  lemma PrefixNotLater(sorted: seq<TimePoint>, e: TimePoint, p: Option<TimePoint>)
    requires p.Some? ==> p.value in sorted[..InsertPos(sorted, e)]
    ensures p.Some? ==> p.value.timestamp <= e.timestamp
  {
    if p.Some? {
      var k := InsertPos(sorted, e);
      var j :| 0 <= j < k && sorted[..k][j] == p.value;
      assert sorted[j] == p.value;
    }
  }


  /** Inserting a later event into a sorted sequence makes it the last match
      exactly when no match already there has a greater timestamp. */
  lemma LastOfInsert(sorted: seq<TimePoint>, e: TimePoint, id: string, a: Action)
    requires forall j :: InsertPos(sorted, e) <= j < |sorted| ==> sorted[j].timestamp > e.timestamp
    ensures var p := LastOf(sorted, id, a);
      LastOf(Insert(sorted, e), id, a)
        == if Matches(e, id, a) && (p.None? || p.value.timestamp <= e.timestamp) then Some(e) else p
  {
    if LastOf(sorted[InsertPos(sorted, e)..], id, a).Some? {
      LastOfInsertBehind(sorted, e, id, a);
    } else {
      LastOfInsertAhead(sorted, e, id, a);
    }
  }

  /** The stable sort turns "latest by timestamp, later in the log on a tie" into
      "last in the sorted sequence". */
  lemma {:induction false} SortedLastIsLatest(s: seq<TimePoint>, id: string, a: Action)
    ensures LastOf(SortByTime(s), id, a) == Latest(s, id, a)
  {
    if s != [] {
      var init, e := s[..|s| - 1], s[|s| - 1];
      var sortedInit := SortByTime(init);
      assert SortByTime(s) == Insert(sortedInit, e);
      SortedLastIsLatest(init, id, a);
      InsertPosSuffix(sortedInit, e);
      LastOfInsert(sortedInit, e, id, a);
      var p := LatestIndex(init, id, a);
      assert LatestIndex(s, id, a)
        == if Matches(e, id, a) && (p.None? || init[p.value].timestamp <= e.timestamp) then Some(|s| - 1) else p;
      assert Latest(init, id, a) == if p.Some? then Some(init[p.value]) else None;
      if p.Some? {
        assert init[p.value] == s[p.value];
      }
    }
  }

  /** The user with field `position` and `status` replaced by those of the given
      move and status events, where there are any. */
  function Patch(u: User, move: Option<TimePoint>, status: Option<TimePoint>): User {
    u.(position := if move.Some? then move.value.position else u.position,
       status := if status.Some? then status.value.status else u.status)
  }

  lemma IdsDistinct(m: seq<User>, r: seq<User>)
    requires DistinctIds(m) && |r| == |m| && Ids(r) == Ids(m)
    ensures DistinctIds(r)
  {
    forall i, j | 0 <= i < j < |r| ensures r[i].id != r[j].id {
      assert r[i].id == Ids(r)[i] && r[j].id == Ids(r)[j];
    }
  }

  /** One event patches its own user's entry and no other. */
  lemma StepAt(m: seq<User>, e: TimePoint, i: nat)
    requires DistinctIds(m) && i < |m|
    ensures Step(m, e)[i]
      == Patch(m[i], if Matches(e, m[i].id, Move) then Some(e) else None,
                     if Matches(e, m[i].id, Status) then Some(e) else None)
  {
    if e.userId == m[i].id {
      FindUserDistinct(m, i);
    }
  }

  /** Folding the events in leaves each entry patched by its own last move and
      its own last status event, and nothing else changed. */
  lemma {:induction false} ApplyEntry(m: seq<User>, evs: seq<TimePoint>, i: nat)
    requires DistinctIds(m) && i < |m|
    ensures Apply(m, evs)[i] == Patch(m[i], LastOf(evs, m[i].id, Move), LastOf(evs, m[i].id, Status))
  {
    if evs != [] {
      var init, e := evs[..|evs| - 1], evs[|evs| - 1];
      var prev := Apply(m, init);
      ApplyEntry(m, init, i);
      IdsDistinct(m, prev);
      assert prev[i].id == Ids(prev)[i] == m[i].id;
      StepAt(prev, e, i);
    }
  }

  // ---------------------------------------------------------------------------
  // Properties of the projection.

  /** No event for `id` with action `a` is logged at or before `t`. */
  ghost predicate NoneDue(log: seq<TimePoint>, t: int, id: string, a: Action) {
    forall e :: e in log && e.timestamp <= t ==> !Matches(e, id, a)
  }

  /** `e` is an event of `log` at or before `t` for `id` with action `a`, and none
      such has a greater timestamp. */
  ghost predicate LatestDue(log: seq<TimePoint>, t: int, id: string, a: Action, e: TimePoint) {
    && e in log && e.timestamp <= t && Matches(e, id, a)
    && forall e' :: e' in log && e'.timestamp <= t && Matches(e', id, a) ==> e'.timestamp <= e.timestamp
  }

  /** The latest event among the due ones is latest among the log's events up to `t`. */
  lemma LatestOfDue(log: seq<TimePoint>, t: int, id: string, a: Action)
    ensures Latest(Due(log, t), id, a).None? ==> NoneDue(log, t, id, a)
    ensures Latest(Due(log, t), id, a).Some? ==> LatestDue(log, t, id, a, Latest(Due(log, t), id, a).value)
  {
    var due := Due(log, t);
    match LatestIndex(due, id, a)
    case None =>
      forall e | e in log && e.timestamp <= t ensures !Matches(e, id, a) {
        assert e in due;
        var j :| 0 <= j < |due| && due[j] == e;
      }
    case Some(k) =>
      forall e' | e' in log && e'.timestamp <= t && Matches(e', id, a) ensures e'.timestamp <= due[k].timestamp {
        assert e' in due;
        var j :| 0 <= j < |due| && due[j] == e';
      }
  }

  /** Each projected user is the map's entry (the last base user with its id, see
      `SeedLast`), with its position
      taken from the latest move and its status from the latest status event at
      or before `t`, where there is one; no other field differs. */
  lemma ProjectEntry(log: seq<TimePoint>, t: int, base: seq<User>, i: nat)
    requires log != [] && i < |Seed(base)|
    ensures |Project(log, t, base)| == |Seed(base)|
    ensures var id := Seed(base)[i].id;
      Project(log, t, base)[i]
        == Patch(Seed(base)[i], Latest(Due(log, t), id, Move), Latest(Due(log, t), id, Status))
  {
    var id := Seed(base)[i].id;
    var sorted := SortByTime(Due(log, t));
    ApplyEntry(Seed(base), sorted, i);
    SortedLastIsLatest(Due(log, t), id, Move);
    SortedLastIsLatest(Due(log, t), id, Status);
  }

  /** The headline replay property: a user's projected position is the one of
      its latest move at or before `t`, or its base position when it has no such move. */
  lemma ProjectedPositionIsLatestMove(log: seq<TimePoint>, t: int, base: seq<User>, i: nat)
    requires log != [] && i < |Seed(base)|
    ensures var u, p := Seed(base)[i], Project(log, t, base)[i];
      && p.id == u.id
      && (NoneDue(log, t, u.id, Move) ==> p.position == u.position)
      && (!NoneDue(log, t, u.id, Move) ==> exists e :: LatestDue(log, t, u.id, Move, e) && p.position == e.position)
  {
    var u := Seed(base)[i];
    ProjectEntry(log, t, base, i);
    LatestOfDue(log, t, u.id, Move);
  }

  /** Moves never touch statuses and status events never touch positions; every
      field other than position and status is the base user's. */
  lemma ProjectFrame(log: seq<TimePoint>, t: int, base: seq<User>, i: nat)
    requires log != [] && i < |Seed(base)|
    ensures var u, p := Seed(base)[i], Project(log, t, base)[i];
      && p == u.(position := p.position, status := p.status)
      && (NoneDue(log, t, u.id, Status) ==> p.status == u.status)
      && (!NoneDue(log, t, u.id, Status) ==> exists e :: LatestDue(log, t, u.id, Status, e) && p.status == e.status)
  {
    var u := Seed(base)[i];
    ProjectEntry(log, t, base, i);
    LatestOfDue(log, t, u.id, Status);
  }

  /** With a non-empty log the result lists each distinct base id once, in the
      order of first occurrence. */
  lemma ProjectIds(log: seq<TimePoint>, t: int, base: seq<User>)
    requires log != []
    ensures Ids(Project(log, t, base)) == Dedup(Ids(base))
    ensures DistinctIds(Project(log, t, base))
  {
    SeedIds(base);
    IdsDistinct(Seed(base), Project(log, t, base));
  }

  /** An event stamped after `t` never changes the projection at `t`. */
  lemma ProjectIgnoresLaterEvent(log: seq<TimePoint>, e: TimePoint, t: int, base: seq<User>)
    requires log != [] && e.timestamp > t
    ensures Project(log + [e], t, base) == Project(log, t, base)
  {
    assert (log + [e])[..|log|] == log;
  }

  /** If no event falls in (t1, t2], the projections at t1 and t2 agree. */
  lemma ProjectConstantBetween(log: seq<TimePoint>, t1: int, t2: int, base: seq<User>)
    requires t1 <= t2
    requires forall e :: e in log ==> !(t1 < e.timestamp <= t2)
    ensures Project(log, t1, base) == Project(log, t2, base)
  {
    DueConstantBetween(log, t1, t2);
  }

  // ---------------------------------------------------------------------------
  // The worked example: u1 moves to (5,5) at 10 and to (9,9) at 20.

  function ExampleUser(): User {
    User("u1", "Jane", "Dev", "online", true, false, None, None, None, Position(0.0, 0.0))
  }

  function ExampleLog(): seq<TimePoint> {
    [TimePoint(10, "u1", Position(5.0, 5.0), "online", Move, None),
     TimePoint(20, "u1", Position(9.0, 9.0), "online", Move, None)]
  }

  lemma ExampleDue()
    ensures Due(ExampleLog(), 15) == ExampleLog()[..1]
    ensures Due(ExampleLog(), 25) == ExampleLog()
    ensures Due(ExampleLog(), 5) == []
  {
    var log := ExampleLog();
    assert log[..1] == [log[0]];
    assert [log[0]][..0] == [];
  }

  lemma ExampleSort()
    ensures SortByTime(ExampleLog()[..1]) == ExampleLog()[..1]
    ensures SortByTime(ExampleLog()) == ExampleLog()
  {
    var log := ExampleLog();
    assert log[..1] == [log[0]];
    assert [log[0]][..0] == [];
    assert SortByTime([log[0]]) == Insert([], log[0]) == [log[0]];
    assert InsertPos([log[0]], log[1]) == 1;
  }

  lemma ExampleApply()
    ensures Apply([ExampleUser()], ExampleLog()[..1]) == [ExampleUser().(position := Position(5.0, 5.0))]
    ensures Apply([ExampleUser()], ExampleLog()) == [ExampleUser().(position := Position(9.0, 9.0))]
  {
    var log, u := ExampleLog(), ExampleUser();
    var u5 := u.(position := Position(5.0, 5.0));
    assert FindUser([u], "u1") == Some(0);
    assert FindUser([u5], "u1") == Some(0);
    assert log[..1] == [log[0]];
    assert [log[0]][..0] == [];
    assert Apply([u], [log[0]]) == Step([u], log[0]) == [u5];
    assert Apply([u], log) == Step([u5], log[1]);
  }

  lemma ExampleReplay()
    ensures Project(ExampleLog(), 15, [ExampleUser()]) == [ExampleUser().(position := Position(5.0, 5.0))]
    ensures Project(ExampleLog(), 25, [ExampleUser()]) == [ExampleUser().(position := Position(9.0, 9.0))]
    ensures Project(ExampleLog(), 5, [ExampleUser()]) == [ExampleUser()]
  {
    var log, u := ExampleLog(), ExampleUser();
    assert Seed([u]) == [u] by {
      assert [u][..0] == [];
      assert Seed([u]) == Put([], u);
    }
    assert Project(log, 15, [u]) == [u.(position := Position(5.0, 5.0))] by {
      ExampleDue();
      ExampleSort();
      ExampleApply();
    }
    assert Project(log, 25, [u]) == [u.(position := Position(9.0, 9.0))] by {
      ExampleDue();
      ExampleSort();
      ExampleApply();
    }
    assert Project(log, 5, [u]) == [u] by {
      ExampleDue();
    }
  }

  /** The wired callback misses the move the replay applies. */
  lemma StaleProjectionIgnoresLog()
    ensures UsersAtTimeAsWired(ExampleLog(), 15, [ExampleUser()])[0].position == Position(0.0, 0.0)
    ensures Project(ExampleLog(), 15, [ExampleUser()])[0].position == Position(5.0, 5.0)
  {
    ExampleReplay();
  }
}
