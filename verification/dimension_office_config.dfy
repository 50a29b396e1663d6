/** The per-dimension rewrite of the office floor plan of
    lib/dimension-office-config.ts: the floors are copied, and each area's
    furniture list is edited in place according to the dimension. */
module DimensionOfficeConfig {
  import opened Base
  import opened Forest

  const ProjectorKind: string := "holographic_projector"

  /** The projector placed in the middle of an area that lacks one. */
  function Projector(area: OfficeArea): (r: Furniture)
    ensures r.kind == ProjectorKind
  {
    Furniture(ProjectorKind, area.width * 0.5, area.height * 0.5, Some(50.0), Some(50.0))
  }

  /** `furniture.some(f => f.type === kind)`. */
  predicate HasKind(furniture: seq<Furniture>, kind: string) {
    exists i :: 0 <= i < |furniture| && furniture[i].kind == kind
  }

  predicate IsDeskOrChair(f: Furniture) {
    f.kind == "desk" || f.kind == "chair"
  }

  /** `furniture.filter(item => item.type !== "desk" && item.type !== "chair")`. */
  function WithoutDesks(furniture: seq<Furniture>): (r: seq<Furniture>)
    ensures |r| <= |furniture|
    ensures forall f :: f in r <==> f in furniture && !IsDeskOrChair(f)
  {
    if furniture == [] then []
    else
      var init, f := furniture[..|furniture| - 1], furniture[|furniture| - 1];
      assert furniture == init + [f];
      if IsDeskOrChair(f) then WithoutDesks(init) else WithoutDesks(init) + [f]
  }

  /** The filter works piece by piece, so what it keeps stays in its order. */
  lemma {:induction false} WithoutDesksAppend(a: seq<Furniture>, b: seq<Furniture>)
    ensures WithoutDesks(a + b) == WithoutDesks(a) + WithoutDesks(b)
    decreases |b|
  {
    if b != [] {
      var init, f := b[..|b| - 1], b[|b| - 1];
      assert b == init + [f];
      assert (a + b)[..|a + b| - 1] == a + init && (a + b)[|a + b| - 1] == f;
      WithoutDesksAppend(a, init);
      if !IsDeskOrChair(f) {
        calc {
          WithoutDesks(a + b);
          WithoutDesks(a + init) + [f];
          (WithoutDesks(a) + WithoutDesks(init)) + [f];
          WithoutDesks(a) + (WithoutDesks(init) + [f]);
          WithoutDesks(a) + WithoutDesks(b);
        }
      }
    } else {
      assert a + b == a;
    }
  }

  /** A list with no desk and no chair passes the filter unchanged. */
  lemma {:induction false} WithoutDesksNone(furniture: seq<Furniture>)
    requires forall i :: 0 <= i < |furniture| ==> !IsDeskOrChair(furniture[i])
    ensures WithoutDesks(furniture) == furniture
  {
    if furniture != [] {
      var init := furniture[..|furniture| - 1];
      assert furniture == init + [furniture[|furniture| - 1]];
      WithoutDesksNone(init);
    }
  }

  /** The decorations the dimension lists for the area, when it lists any. */
  function Decorations(d: Dimension, area: OfficeArea): Option<seq<Furniture>> {
    if d.decorations.Some? && area.id in d.decorations.value then Some(d.decorations.value[area.id]) else None
  }

  /** What one pass of the area loop does to one area: only its furniture
      list changes. */
  function AdjustArea(d: Dimension, area: OfficeArea): (r: OfficeArea)
    ensures r == area.(furniture := r.furniture)
    ensures area.furniture.Some? ==> r.furniture.Some?
  {
    var a1 :=
      if d.id == "future-office" then
        var f := area.furniture.GetOr([]);
        area.(furniture := Some(if HasKind(f, ProjectorKind) then f else f + [Projector(area)]))
      else area;
    var a2 :=
      if d.id == "open-plan" && a1.furniture.Some? then a1.(furniture := Some(WithoutDesks(a1.furniture.value)))
      else a1;
    match Decorations(d, area)
    case Some(extra) => a2.(furniture := Some(a2.furniture.GetOr([]) + extra))
    case None => a2
  }

  /** The rewrite of one floor: its id, connections and area order stay. */
  function AdjustFloor(d: Dimension, floor: OfficeFloor): (r: OfficeFloor)
    ensures r.id == floor.id && r.connections == floor.connections
    ensures |r.areas| == |floor.areas|
    ensures forall i :: 0 <= i < |floor.areas| ==> r.areas[i] == AdjustArea(d, floor.areas[i])
  {
    floor.(areas := seq(|floor.areas|, i requires 0 <= i < |floor.areas| => AdjustArea(d, floor.areas[i])))
  }

  /** The rewrite of every floor under its own key. */
  function AdjustConfig(d: Dimension, base: map<string, OfficeFloor>): (r: map<string, OfficeFloor>)
    ensures r.Keys == base.Keys
    ensures forall k :: k in base ==> r[k] == AdjustFloor(d, base[k])
  {
    map k | k in base :: AdjustFloor(d, base[k])
  }

  /** The area loop over the copied floor, one area at a time. */
  method AdjustAreas(d: Dimension, areas: array<OfficeArea>)
    modifies areas
    ensures forall i :: 0 <= i < areas.Length ==> areas[i] == AdjustArea(d, old(areas[i]))
  {
    for i := 0 to areas.Length
      invariant forall j :: 0 <= j < i ==> areas[j] == AdjustArea(d, old(areas[j]))
      invariant forall j :: i <= j < areas.Length ==> areas[j] == old(areas[j])
    {
      var area := areas[i];
      if d.id == "future-office" {
        var furniture := area.furniture.GetOr([]);
        if !HasKind(furniture, ProjectorKind) {
          furniture := furniture + [Projector(area)];
        }
        area := area.(furniture := Some(furniture));
      }
      if d.id == "open-plan" && area.furniture.Some? {
        area := area.(furniture := Some(WithoutDesks(area.furniture.value)));
      }
      if d.decorations.Some? && areas[i].id in d.decorations.value {
        area := area.(furniture := Some(area.furniture.GetOr([]) + d.decorations.value[areas[i].id]));
      }
      areas[i] := area;
    }
  }

  /** `getDimensionBasedOfficeConfig`: without a dimension the base plan itself;
      with one, a copy of every floor whose areas went through the area loop. */
  method GetDimensionBasedOfficeConfig(dimension: Option<Dimension>, baseConfig: map<string, OfficeFloor>)
    returns (r: map<string, OfficeFloor>)
    ensures dimension.None? ==> r == baseConfig
    ensures dimension.Some? ==> r == AdjustConfig(dimension.value, baseConfig)
  {
    if dimension.None? {
      return baseConfig;
    }
    var d := dimension.value;
    r := map[];
    var keys := baseConfig.Keys;
    while keys != {}
      invariant keys <= baseConfig.Keys
      invariant r.Keys == baseConfig.Keys - keys
      invariant forall k :: k in r ==> r[k] == AdjustFloor(d, baseConfig[k])
      decreases keys
    {
      var k :| k in keys;
      var floor := baseConfig[k];
      var areas := new OfficeArea[|floor.areas|](i requires 0 <= i < |floor.areas| => floor.areas[i]);
      AdjustAreas(d, areas);
      r := r[k := floor.(areas := areas[..])];
      keys := keys - {k};
    }
  }

  // ---------------------------------------------------------------------------
  // What the rewrite promises.

  /** The dimension's decorations for an area come last, after everything the
      rest of the pass left in the list. */
  lemma DecorationsComeLast(d: Dimension, area: OfficeArea)
    requires Decorations(d, area).Some?
    ensures AdjustArea(d, area).furniture
         == Some(AdjustArea(d.(decorations := None), area).furniture.GetOr([]) + Decorations(d, area).value)
  {
  }

  /** In the future office every area ends with a projector: the one it had,
      or a new one in its middle when it had none. */
  lemma FutureOfficeProjector(d: Dimension, area: OfficeArea)
    requires d.id == "future-office"
    ensures AdjustArea(d, area).furniture.Some?
    ensures HasKind(AdjustArea(d, area).furniture.value, ProjectorKind)
    ensures !HasKind(area.furniture.GetOr([]), ProjectorKind) ==> Projector(area) in AdjustArea(d, area).furniture.value
    ensures !HasKind(area.furniture.GetOr([]), ProjectorKind) ==>
      AdjustArea(d, area).furniture == Some(area.furniture.GetOr([]) + [Projector(area)] + Decorations(d, area).GetOr([]))
    ensures HasKind(area.furniture.GetOr([]), ProjectorKind) && Decorations(d, area).None? ==>
      AdjustArea(d, area).furniture == Some(area.furniture.GetOr([]))
  {
    var f := area.furniture.GetOr([]);
    var g := if HasKind(f, ProjectorKind) then f else f + [Projector(area)];
    if !HasKind(f, ProjectorKind) {
      assert g[|f|] == Projector(area);
    }
    assert HasKind(g, ProjectorKind);
    var r := AdjustArea(d, area).furniture.value;
    var extra := Decorations(d, area).GetOr([]);
    assert r == g + extra;
    var i :| 0 <= i < |g| && g[i].kind == ProjectorKind;
    assert r[i] == g[i];
  }

  /** In the open-plan office no desk or chair is left but those the dimension's
      own decorations bring, and everything else keeps its order. */
  lemma OpenPlanClearsDesks(d: Dimension, area: OfficeArea)
    requires d.id == "open-plan"
    ensures area.furniture.Some? ==>
      AdjustArea(d, area).furniture == Some(WithoutDesks(area.furniture.value) + Decorations(d, area).GetOr([]))
    ensures area.furniture.None? ==> AdjustArea(d, area).furniture == Decorations(d, area)
    ensures forall f :: f in AdjustArea(d, area).furniture.GetOr([]) && IsDeskOrChair(f) ==>
      f in Decorations(d, area).GetOr([])
  {
    var extra := Decorations(d, area).GetOr([]);
    if area.furniture.None? {
      assert [] + extra == extra;
    } else {
      assert WithoutDesks(area.furniture.value) + [] == WithoutDesks(area.furniture.value);
    }
  }

  /** A dimension that is neither special office and decorates nothing leaves
      the plan as it was. */
  lemma NeutralDimension(d: Dimension, base: map<string, OfficeFloor>)
    requires d.id != "future-office" && d.id != "open-plan" && d.decorations.None?
    ensures AdjustConfig(d, base) == base
  {
    forall k | k in base
      ensures AdjustFloor(d, base[k]) == base[k]
    {
      assert AdjustFloor(d, base[k]).areas == base[k].areas;
    }
  }

  /** Without decorations for the area, a second pass changes nothing more:
      the projector is added once and the filter has nothing left to drop. */
  lemma AdjustAreaIdempotent(d: Dimension, area: OfficeArea)
    requires Decorations(d, area).None?
    ensures AdjustArea(d, AdjustArea(d, area)) == AdjustArea(d, area)
  {
    var a := AdjustArea(d, area);
    assert a.id == area.id;
    if d.id == "future-office" {
      FutureOfficeProjector(d, area);
      FutureOfficeProjector(d, a);
    } else if d.id == "open-plan" && a.furniture.Some? {
      var w := a.furniture.value;
      assert forall i :: 0 <= i < |w| ==> w[i] in w;
      WithoutDesksNone(w);
    }
  }
}
