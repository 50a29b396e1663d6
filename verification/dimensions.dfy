/** The dimension manager of hooks/use-dimensions.tsx: the list of dimensions,
    the sparse map from dimension id to its stored user snapshot, and the id of
    the active dimension, changed by create, switch, update and merge. */
module Dimensions {
  import opened Base
  import opened Forest

  const PortalColor: string := "#7c3aed"

  /** The three dimensions the hook starts with; `createdAt` strings are the
      ISO timestamps of now, one day ago and two days ago. */
  function InitialDimensions(now: string, dayAgo: string, twoDaysAgo: string): (r: seq<Dimension>)
    ensures |r| == 3 && r[0].id == "default" && r[1].id == "open-plan" && r[2].id == "future-office"
  {
    [Dimension("default", "Primary Reality", "The main office configuration", now, 7, Some("#7c3aed"),
       map[], None, Some(Effects(None)), Some([]), Some([]), None, None),
     Dimension("open-plan", "Open Floor Plan", "Collaborative open workspace with minimal walls", dayAgo, 3,
       Some("#2196f3"), map[], Some("default"), Some(Effects(Some("glow"))),
       Some([Anomaly("open-workspace", "Collaboration Zone", 250.0, 150.0, 100.0, "#2196f3")]),
       Some([Portal(Position(1200.0, 500.0), "future-office", "Future Office", Some("#2196f3"))]), None, None),
     Dimension("future-office", "Future Office 2030", "Futuristic office with advanced technology", twoDaysAgo, 1,
       Some("#f44336"), map[], Some("default"), Some(Effects(Some("pixelated"))),
       Some([Anomaly("executive-office", "Time Anomaly", 125.0, 100.0, 80.0, "#f44336")]),
       Some([Portal(Position(500.0, 300.0), "open-plan", "Open Plan", Some("#f44336"))]), Some("aurora"), None)]
  }

  /** Both seeded branches hang off the primary reality, and each chain is two long. */
  lemma InitialForest(now: string, dayAgo: string, twoDaysAgo: string)
    ensures var dims := InitialDimensions(now, dayAgo, twoDaysAgo);
      && Acyclic(dims)
      && WalkEnds(Links(dims), "future-office") && WalkEnds(Links(dims), "open-plan")
      && Ancestry(Links(dims), "future-office") == [dims[0], dims[2]]
      && Ancestry(Links(dims), "open-plan") == [dims[0], dims[1]]
  {
    var dims := InitialDimensions(now, dayAgo, twoDaysAgo);
    TwoBranchForest(dims);
  }

  /** Any three dimensions shaped like the starting list: a root and two
      branches hanging off it. */
  lemma TwoBranchForest(dims: seq<Dimension>)
    requires |dims| == 3 && dims[0].id == "default" && dims[1].id == "open-plan" && dims[2].id == "future-office"
    requires ParentKey(dims[0]) == "" && ParentKey(dims[1]) == "default" && ParentKey(dims[2]) == "default"
    ensures Acyclic(dims)
    ensures WalkEnds(Links(dims), "future-office") && WalkEnds(Links(dims), "open-plan")
    ensures Ancestry(Links(dims), "future-office") == [dims[0], dims[2]]
    ensures Ancestry(Links(dims), "open-plan") == [dims[0], dims[1]]
  {
    var t := Links(dims);
    TwoBranchAcyclic(dims);
    ThreeLinks(dims);
    AncestryOfHalt(t, "");
    AncestryStep(t, "default");
    AncestryStep(t, "future-office");
    AncestryStep(t, "open-plan");
  }

  /** Such a list links backwards. */
  lemma TwoBranchAcyclic(dims: seq<Dimension>)
    requires |dims| == 3 && dims[0].id == "default" && dims[1].id == "open-plan" && dims[2].id == "future-office"
    requires ParentKey(dims[0]) == "" && ParentKey(dims[1]) == "default" && ParentKey(dims[2]) == "default"
    ensures Acyclic(dims)
  {
    assert "open-plan" != "default" && "future-office" != "default";
    assert FindDim(dims, "default") == Some(0);
  }

  /** The table of three dimensions under the three seeded ids. */
  lemma ThreeLinks(dims: seq<Dimension>)
    requires |dims| == 3 && dims[0].id == "default" && dims[1].id == "open-plan" && dims[2].id == "future-office"
    ensures FindDim(dims, "default") == Some(0) && FindDim(dims, "open-plan") == Some(1)
    ensures FindDim(dims, "future-office") == Some(2)
    ensures Links(dims) == map["default" := dims[0], "open-plan" := dims[1], "future-office" := dims[2]]
  {
    assert "open-plan" != "default" && "future-office" != "default" && "future-office" != "open-plan";
    assert dims[1..][1..] == [dims[2]] && [dims[2]][1..] == [];
    assert Links([dims[2]]) == map["future-office" := dims[2]];
    assert Links(dims[1..]) == map["future-office" := dims[2], "open-plan" := dims[1]];
  }

  /** Re-parenting a seeded branch under the other one: the list no longer
      links backwards, yet every walk ends and the chain runs through both branches. */
  lemma ReparentedForest(dims: seq<Dimension>)
    requires |dims| == 3 && dims[0].id == "default" && dims[1].id == "open-plan" && dims[2].id == "future-office"
    requires ParentKey(dims[0]) == "" && ParentKey(dims[1]) == "future-office" && ParentKey(dims[2]) == "default"
    ensures !Acyclic(dims)
    ensures WalkEnds(Links(dims), "open-plan")
    ensures Ancestry(Links(dims), "open-plan") == [dims[0], dims[2], dims[1]]
  {
    var t := Links(dims);
    ThreeLinks(dims);
    assert FindDim(dims, ParentKey(dims[1])).value == 2;
    AncestryOfHalt(t, "");
    AncestryStep(t, "default");
    AncestryStep(t, "future-office");
    AncestryStep(t, "open-plan");
  }

  /** The update that moves "open-plan" under "future-office", applied to the
      starting list, is such a forest: its history is three long. */
  lemma ReparentedHistory(now: string, dayAgo: string, twoDaysAgo: string)
    ensures var dims := UpdateAll(InitialDimensions(now, dayAgo, twoDaysAgo), "open-plan", ParentPatch(Some("future-office")));
      && !Acyclic(dims)
      && WalkEnds(Links(dims), "open-plan")
      && Ancestry(Links(dims), "open-plan") == [dims[0], dims[2], dims[1]]
  {
    var dims := UpdateAll(InitialDimensions(now, dayAgo, twoDaysAgo), "open-plan", ParentPatch(Some("future-office")));
    ReparentedForest(dims);
  }

  /** Three dimensions where the root has been linked under one of its branches:
      no walk from any of them ever reaches an id that stops it. */
  lemma ClosedCycleNeverEnds(dims: seq<Dimension>)
    requires |dims| == 3 && dims[0].id == "default" && dims[1].id == "open-plan" && dims[2].id == "future-office"
    requires ParentKey(dims[0]) == "open-plan" && ParentKey(dims[1]) == "default" && ParentKey(dims[2]) == "default"
    ensures !WalkEnds(Links(dims), "default")
    ensures !WalkEnds(Links(dims), "open-plan")
    ensures !WalkEnds(Links(dims), "future-office")
  {
    var t := Links(dims);
    ThreeLinks(dims);
    assert IdAfter(t, "default", 2) == "default";
    RepeatNeverEnds(t, "default", 0, 2);
    assert IdAfter(t, "open-plan", 2) == "open-plan";
    RepeatNeverEnds(t, "open-plan", 0, 2);
    assert IdAfter(t, "future-office", 1) == "default" == IdAfter(t, "future-office", 3);
    RepeatNeverEnds(t, "future-office", 1, 3);
  }

  /** The update that links "default" under "open-plan", applied to the
      starting list, closes such a cycle. */
  lemma ClosingPatchLoops(now: string, dayAgo: string, twoDaysAgo: string)
    ensures var dims := UpdateAll(InitialDimensions(now, dayAgo, twoDaysAgo), "default", ParentPatch(Some("open-plan")));
      && !WalkEnds(Links(dims), "default")
      && !WalkEnds(Links(dims), "open-plan")
      && !WalkEnds(Links(dims), "future-office")
  {
    var dims := UpdateAll(InitialDimensions(now, dayAgo, twoDaysAgo), "default", ParentPatch(Some("open-plan")));
    ClosedCycleNeverEnds(dims);
  }

  lemma InitialChildren(now: string, dayAgo: string, twoDaysAgo: string)
    ensures var dims := InitialDimensions(now, dayAgo, twoDaysAgo);
      Children(dims, "default") == [dims[1], dims[2]]
  {
    var dims := InitialDimensions(now, dayAgo, twoDaysAgo);
    assert dims[..2][..1] == [dims[0]];
    assert [dims[0]][..0] == [];
    assert Children([dims[0]], "default") == [];
    assert Children(dims[..2], "default") == [dims[1]];
  }

  /** The dimension `createDimension` appends: a branch of the active dimension,
      copying its office configuration, with one portal back to it. */
  function Branch(id: string, name: string, description: string, createdAt: string, color: string,
                  currentId: string, current: Dimension): (r: Dimension)
    ensures r.id == id && r.parentId == Some(currentId) && r.officeConfig == current.officeConfig
    ensures r.portals.Some? && |r.portals.value| == 1
    ensures r.portals.value[0].targetId == currentId && r.portals.value[0].targetName == current.name
    ensures r.anomalies == Some([]) && r.userCount == 1
  {
    Dimension(id, name, description, createdAt, 1, Some(color), current.officeConfig, Some(currentId),
      Some(Effects(None)), Some([]), Some([Portal(Position(500.0, 300.0), currentId, current.name, Some(PortalColor))]),
      None, None)
  }

  /** The dimension `mergeDimensions` appends: a child of the target carrying the
      target's settings, both anomaly lists and portals to the target then the source. */
  function Merged(id: string, createdAt: string, sourceId: string, source: Dimension,
                  targetId: string, target: Dimension): (r: Dimension)
    ensures r.id == id && r.parentId == Some(targetId) && r.officeConfig == target.officeConfig
    ensures r.portals.Some? && |r.portals.value| == 2
    ensures r.portals.value[0].targetId == targetId && r.portals.value[1].targetId == sourceId
  {
    Dimension(id, "Merged: " + target.name, "Merged from " + source.name + " into " + target.name, createdAt,
      target.userCount, target.color, target.officeConfig, Some(targetId), target.effects,
      Some(target.anomalies.GetOr([]) + source.anomalies.GetOr([])),
      Some([Portal(Position(500.0, 300.0), targetId, target.name, target.color),
            Portal(Position(700.0, 300.0), sourceId, source.name, source.color)]),
      target.weather, None)
  }

  /** A merged dimension carries the target's anomalies followed by the source's. */
  lemma MergedAnomalies(id: string, createdAt: string, sourceId: string, source: Dimension,
                        targetId: string, target: Dimension)
    ensures var r := Merged(id, createdAt, sourceId, source, targetId, target);
      && r.anomalies.Some?
      && |r.anomalies.value| == |target.anomalies.GetOr([])| + |source.anomalies.GetOr([])|
      && r.anomalies.value[..|target.anomalies.GetOr([])|] == target.anomalies.GetOr([])
      && forall a :: a in r.anomalies.value <==> a in target.anomalies.GetOr([]) || a in source.anomalies.GetOr([])
  {
    var t := target.anomalies.GetOr([]);
    assert Merged(id, createdAt, sourceId, source, targetId, target).anomalies.value == t + source.anomalies.GetOr([]);
    assert (t + source.anomalies.GetOr([]))[..|t|] == t;
  }

  /** The fields an update may carry; `None` leaves a field as it is. */
  datatype DimensionPatch = DimensionPatch(
    id: Option<string>,
    name: Option<string>,
    description: Option<string>,
    createdAt: Option<string>,
    userCount: Option<int>,
    color: Option<Option<string>>,
    officeConfig: Option<map<string, string>>,
    parentId: Option<Option<string>>,
    effects: Option<Option<Effects>>,
    anomalies: Option<Option<seq<Anomaly>>>,
    portals: Option<Option<seq<Portal>>>,
    weather: Option<Option<string>>,
    decorations: Option<Option<map<string, seq<Furniture>>>>)

  /** The patch that sets no field. */
  const NoChange := DimensionPatch(None, None, None, None, None, None, None, None, None, None, None, None, None)

  /** The patch `{ parentId }` that moves a dimension under another, or to the
      top with `None`. */
  function ParentPatch(parent: Option<string>): (p: DimensionPatch)
    ensures p.parentId == Some(parent) && p.(parentId := None) == NoChange
  {
    NoChange.(parentId := Some(parent))
  }

  /** `{ ...dim, ...updates }`: every field the patch carries replaces the
      dimension's, the others stay; the empty patch changes nothing. */
  function PatchDimension(d: Dimension, p: DimensionPatch): (r: Dimension)
    ensures p == NoChange ==> r == d
    ensures p.id.None? ==> r.id == d.id
    ensures p.parentId.None? ==> r.parentId == d.parentId
    ensures p.id.Some? ==> r.id == p.id.value
    ensures p.parentId.Some? ==> r.parentId == p.parentId.value
  {
    Dimension(p.id.GetOr(d.id), p.name.GetOr(d.name), p.description.GetOr(d.description),
      p.createdAt.GetOr(d.createdAt), p.userCount.GetOr(d.userCount), p.color.GetOr(d.color),
      p.officeConfig.GetOr(d.officeConfig), p.parentId.GetOr(d.parentId), p.effects.GetOr(d.effects),
      p.anomalies.GetOr(d.anomalies), p.portals.GetOr(d.portals), p.weather.GetOr(d.weather),
      p.decorations.GetOr(d.decorations))
  }

  /** Applying the same update twice is applying it once. */
  lemma PatchIdempotent(d: Dimension, p: DimensionPatch)
    ensures PatchDimension(PatchDimension(d, p), p) == PatchDimension(d, p)
  {
  }

  /** `prev.map(dim => dim.id === id ? { ...dim, ...updates } : dim)`. */
  function UpdateAll(dims: seq<Dimension>, id: string, p: DimensionPatch): (r: seq<Dimension>)
    ensures |r| == |dims|
    ensures forall i :: 0 <= i < |dims| ==> r[i] == if dims[i].id == id then PatchDimension(dims[i], p) else dims[i]
  {
    if dims == [] then []
    else
      var init := dims[..|dims| - 1];
      var d := dims[|dims| - 1];
      UpdateAll(init, id, p) + [if d.id == id then PatchDimension(d, p) else d]
  }

  /** An update that leaves ids and parent links alone leaves every lookup and
      the shape of the forest as they were. */
  lemma UpdateKeepsForest(dims: seq<Dimension>, id: string, p: DimensionPatch, key: string)
    requires p.id.None? && p.parentId.None?
    ensures FindDim(UpdateAll(dims, id, p), key) == FindDim(dims, key)
    ensures Acyclic(dims) ==> Acyclic(UpdateAll(dims, id, p))
  {
    var r := UpdateAll(dims, id, p);
    assert forall i :: 0 <= i < |dims| ==> r[i].id == dims[i].id && ParentKey(r[i]) == ParentKey(dims[i]);
    assert forall k :: FindDim(r, k) == FindDim(dims, k) by {
      forall k ensures FindDim(r, k) == FindDim(dims, k) {
        SameIdsSameFind(dims, r, k);
      }
    }
  }

  lemma SameIdsSameFind(a: seq<Dimension>, b: seq<Dimension>, key: string)
    requires |a| == |b| && forall i :: 0 <= i < |a| ==> a[i].id == b[i].id
    ensures FindDim(a, key) == FindDim(b, key)
  {
    if FindDim(a, key).Some? {
      assert b[FindDim(a, key).value].id == key;
    }
  }

  class DimensionManager {
    var dimensions: seq<Dimension>
    var dimensionData: map<string, seq<User>>
    var currentDimensionId: string

    /** The list is never empty and the active id names a dimension. */
    ghost predicate Valid()
      reads this
    {
      |dimensions| > 0 && FindDim(dimensions, currentDimensionId).Some?
    }

    constructor(now: string, dayAgo: string, twoDaysAgo: string)
      ensures dimensions == InitialDimensions(now, dayAgo, twoDaysAgo)
      ensures dimensionData == map[] && currentDimensionId == "default"
      ensures Valid() && Acyclic(dimensions)
    {
      dimensions := InitialDimensions(now, dayAgo, twoDaysAgo);
      dimensionData := map[];
      currentDimensionId := "default";
      InitialForest(now, dayAgo, twoDaysAgo);
      assert FindDim(InitialDimensions(now, dayAgo, twoDaysAgo), "default") == Some(0);
    }

    /** `dimensions.find(d => d.id === currentDimensionId) || dimensions[0]`. */
    function CurrentDimension(): (r: Dimension)
      requires |dimensions| > 0
      reads this
      ensures r in dimensions
      ensures (exists j :: 0 <= j < |dimensions| && dimensions[j].id == currentDimensionId) ==> r.id == currentDimensionId
      ensures (forall j :: 0 <= j < |dimensions| ==> dimensions[j].id != currentDimensionId) ==> r == dimensions[0]
    {
      match FindDim(dimensions, currentDimensionId)
      case Some(k) => dimensions[k]
      case None => dimensions[0]
    }

    /** Forks the active dimension: appends a branch of it under the fresh id,
        stores the given users as its snapshot and makes it active. */
    method CreateDimension(name: string, description: string, users: seq<User>,
                           freshId: string, createdAt: string, color: string)
      requires Valid() && Fresh(dimensions, freshId)
      modifies this
      ensures dimensions == old(dimensions) + [Branch(freshId, name, description, createdAt, color,
                                                       old(currentDimensionId), old(CurrentDimension()))]
      ensures dimensions[|dimensions| - 1].parentId == Some(old(currentDimensionId))
      ensures dimensionData == old(dimensionData)[freshId := users]
      ensures currentDimensionId == freshId
      ensures Valid()
      ensures ChildAppended(old(dimensions), dimensions, old(currentDimensionId), freshId)
    {
      var d := Branch(freshId, name, description, createdAt, color, currentDimensionId, CurrentDimension());
      var parent := currentDimensionId;
      AppendChild(dimensions, d, parent);
      dimensions := dimensions + [d];
      dimensionData := dimensionData[freshId := users];
      currentDimensionId := freshId;
    }

    /** Makes `dimensionId` active when some dimension has it; otherwise nothing changes. */
    method SwitchDimension(dimensionId: string)
      modifies this
      ensures currentDimensionId == if FindDim(dimensions, dimensionId).Some? then dimensionId else old(currentDimensionId)
      ensures dimensions == old(dimensions) && dimensionData == old(dimensionData)
      ensures old(Valid()) ==> Valid()
    {
      if FindDim(dimensions, dimensionId).Some? {
        currentDimensionId := dimensionId;
      }
    }

    /** Overwrites the given fields of every dimension with the id. */
    method UpdateDimension(dimensionId: string, updates: DimensionPatch)
      modifies this
      ensures dimensions == UpdateAll(old(dimensions), dimensionId, updates)
      ensures dimensionData == old(dimensionData) && currentDimensionId == old(currentDimensionId)
      ensures old(Valid()) && updates.id.None? && updates.parentId.None? ==> Valid()
      ensures old(Acyclic(dimensions)) && updates.id.None? && updates.parentId.None? ==> Acyclic(dimensions)
    {
      if updates.id.None? && updates.parentId.None? {
        UpdateKeepsForest(dimensions, dimensionId, updates, currentDimensionId);
      }
      dimensions := UpdateAll(dimensions, dimensionId, updates);
    }

    /** Merges the source into the target as a new child of the target; with
        either id missing, nothing changes. */
    method MergeDimensions(sourceDimensionId: string, targetDimensionId: string, freshId: string, createdAt: string)
      requires Valid() && Fresh(dimensions, freshId)
      modifies this
      ensures var s, t := FindDim(old(dimensions), sourceDimensionId), FindDim(old(dimensions), targetDimensionId);
        if s.None? || t.None? then
          dimensions == old(dimensions) && dimensionData == old(dimensionData)
          && currentDimensionId == old(currentDimensionId)
        else
          && dimensions == old(dimensions) + [Merged(freshId, createdAt, sourceDimensionId, old(dimensions)[s.value],
                                                     targetDimensionId, old(dimensions)[t.value])]
          && dimensionData == old(dimensionData)[freshId := MergeUsers(
               if targetDimensionId in old(dimensionData) then old(dimensionData)[targetDimensionId] else [],
               if sourceDimensionId in old(dimensionData) then old(dimensionData)[sourceDimensionId] else [])]
          && currentDimensionId == freshId
      ensures Valid()
      ensures FindDim(old(dimensions), sourceDimensionId).Some? && FindDim(old(dimensions), targetDimensionId).Some? ==>
        ChildAppended(old(dimensions), dimensions, targetDimensionId, freshId)
    {
      var s := FindDim(dimensions, sourceDimensionId);
      var t := FindDim(dimensions, targetDimensionId);
      if s.Some? && t.Some? {
        var merged := Merged(freshId, createdAt, sourceDimensionId, dimensions[s.value], targetDimensionId, dimensions[t.value]);
        AppendChild(dimensions, merged, targetDimensionId);
        var sourceUsers := if sourceDimensionId in dimensionData then dimensionData[sourceDimensionId] else [];
        var targetUsers := if targetDimensionId in dimensionData then dimensionData[targetDimensionId] else [];
        var mergedUsers := CombineUsers(targetUsers, sourceUsers);
        dimensions := dimensions + [merged];
        dimensionData := dimensionData[freshId := mergedUsers];
        currentDimensionId := freshId;
        assert Valid();
      }
    }

    /** `dimensionData[id]`: the stored snapshot, absent for a dimension never
        forked or merged into. */
    function GetDimensionData(dimensionId: string): (r: Option<seq<User>>)
      reads this
      ensures r.Some? <==> dimensionId in dimensionData
      ensures r.Some? ==> r.value == dimensionData[dimensionId]
    {
      if dimensionId in dimensionData then Some(dimensionData[dimensionId]) else None
    }

    /** Walks the parent links from `dimensionId`, collecting each dimension
        found, and returns them root first. The loop has no guard against a
        repeated id, so it returns exactly when the walk ends. */
    method GetDimensionHistory(dimensionId: string) returns (history: seq<Dimension>)
      requires WalkEnds(Links(dimensions), dimensionId)
      ensures history == Ancestry(Links(dimensions), dimensionId)
    {
      ghost var t := Links(dimensions);
      ghost var bound: nat :| StopsWithin(t, dimensionId, bound);
      HaltedStays(t, dimensionId, bound, bound);
      var visited: seq<Dimension> := [];
      var currentId := dimensionId;
      while currentId != ""
        invariant |visited| <= bound
        invariant visited == Walk(t, dimensionId, |visited|)
        invariant currentId == IdAfter(t, dimensionId, |visited|)
        decreases bound - |visited|
      {
        var found := FindDim(dimensions, currentId);
        LinksFind(dimensions, currentId);
        if found.None? {
          break;
        }
        var d := dimensions[found.value];
        assert |visited| < bound;
        WalkSnoc(t, dimensionId, |visited|);
        IdAfterSnoc(t, dimensionId, |visited|);
        visited := visited + [d];
        currentId := ParentKey(d);
      }
      LinksFind(dimensions, currentId);
      assert StopsWithin(t, dimensionId, |visited|);
      AncestryIsWalk(t, dimensionId, |visited|);
      history := Reverse(visited);
    }

    /** The history walk with a guard against revisiting an id: it always
        returns, with the same chain whenever the walk ends; on a cycle it stops
        at the first repeated id, each dimension collected once. */
    method GetDimensionHistoryGuarded(dimensionId: string) returns (history: seq<Dimension>)
      ensures WalkEnds(Links(dimensions), dimensionId) ==> history == Ancestry(Links(dimensions), dimensionId)
      ensures history == Reverse(Walk(Links(dimensions), dimensionId, |history|))
      ensures forall i, j :: 0 <= i < j < |history| ==> history[i].id != history[j].id
      ensures history != [] ==>
        Halts(Links(dimensions), ParentKey(history[0])) || exists d :: d in history && d.id == ParentKey(history[0])
    {
      var dims := dimensions;
      ghost var t := Links(dims);
      var visited: seq<Dimension> := [];
      var seen: set<string> := {};
      var currentId := dimensionId;
      while currentId != "" && currentId !in seen
        invariant visited == Walk(t, dimensionId, |visited|)
        invariant currentId == IdAfter(t, dimensionId, |visited|)
        invariant seen == IdsOf(visited) && seen <= t.Keys
        invariant forall k :: 0 <= k < |visited| ==> visited[k].id == IdAfter(t, dimensionId, k)
        invariant forall i, j :: 0 <= i < j < |visited| ==> visited[i].id != visited[j].id
        decreases t.Keys - seen
      {
        var found := FindDim(dims, currentId);
        LinksFind(dims, currentId);
        if found.None? {
          break;
        }
        var d := dims[found.value];
        GuardedStep(t, dimensionId, visited, d);
        visited := visited + [d];
        seen := seen + {currentId};
        currentId := ParentKey(d);
      }
      LinksFind(dims, currentId);
      StoppedWalk(t, dimensionId, visited, currentId);
      history := Reverse(visited);
    }

    /** The dimensions whose parent is `dimensionId`, in list order: cut the
        list anywhere, and they are the children in the first part followed by
        those in the second. */
    function GetDimensionChildren(dimensionId: string): (r: seq<Dimension>)
      reads this
      ensures forall d :: d in r <==> d in dimensions && d.parentId == Some(dimensionId)
      ensures forall k :: 0 <= k <= |dimensions| ==>
        r == Children(dimensions[..k], dimensionId) + Children(dimensions[k..], dimensionId)
    {
      ChildrenOrder(dimensions, dimensionId);
      Children(dimensions, dimensionId)
    }
  }

  /** The `forEach` that combines two snapshots: the target's users, then each
      source user whose id is not yet present. */
  method CombineUsers(targetUsers: seq<User>, sourceUsers: seq<User>) returns (mergedUsers: seq<User>)
    ensures mergedUsers == MergeUsers(targetUsers, sourceUsers)
  {
    mergedUsers := targetUsers;
    var i := 0;
    while i < |sourceUsers|
      invariant 0 <= i <= |sourceUsers|
      invariant mergedUsers == MergeUsers(targetUsers, sourceUsers[..i])
    {
      var sourceUser := sourceUsers[i];
      assert sourceUsers[..i + 1][..i] == sourceUsers[..i];
      if FindUser(mergedUsers, sourceUser.id).None? {
        mergedUsers := mergedUsers + [sourceUser];
      }
      i := i + 1;
    }
    assert sourceUsers[..i] == sourceUsers;
  }
}
