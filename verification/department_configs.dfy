/** The department layouts of lib/department-configs.ts: seven departments have
    hand-made layouts, and a loop over the department list gives every other one
    a default layout placed on a five-column grid. The department list itself
    (lib/departments.ts) is not part of this model and is a parameter. */
module DepartmentConfigs {
  import opened Base

  datatype Point3 = Point3(x: real, y: real, z: real)

  datatype MeetingArea = MeetingArea(position: Point3, size: real)

  datatype Decoration = Decoration(kind: string, x: real, y: real)

  datatype DepartmentConfig = DepartmentConfig(
    mapPosition: Position,
    width: real,
    height: real,
    floorColor: string,
    accentColor: string,
    deskPositions: seq<Point3>,
    meetingAreas: seq<MeetingArea>,
    decorations: Option<seq<Decoration>>)

  /** Desks on a grid of the given columns and rows, row by row. */
  function Desks(xs: seq<real>, ys: seq<real>): (r: seq<Point3>)
    ensures |r| == |ys| * |xs|
  {
    if ys == [] then [] else Desks(xs, ys[..|ys| - 1]) + Row(xs, ys[|ys| - 1])
  }

  function Row(xs: seq<real>, y: real): (r: seq<Point3>)
    ensures |r| == |xs|
  {
    if xs == [] then [] else Row(xs[..|xs| - 1], y) + [Point3(xs[|xs| - 1], y, 0.0)]
  }

  /** The hand-made layouts, keyed by department name. */
  function ExplicitConfigs(): (r: map<string, DepartmentConfig>)
    ensures r.Keys == {"CF PS", "HR", "MFG & Purchases", "CF PS MFG EGYPT", "F&A", "Line-1", "QA"}
  {
    map[
      "CF PS" := DepartmentConfig(Position(50.0, 100.0), 300.0, 200.0, "#e3f2fd", "#2196f3",
        Desks([50.0, 120.0, 190.0], [50.0, 120.0]),
        [MeetingArea(Point3(250.0, 150.0, 0.0), 2.0)],
        Some([Decoration("plant", 20.0, 20.0), Decoration("water", 270.0, 30.0)])),
      "HR" := DepartmentConfig(Position(400.0, 100.0), 250.0, 200.0, "#f3e5f5", "#9c27b0",
        Desks([50.0, 120.0], [50.0, 120.0]),
        [MeetingArea(Point3(200.0, 100.0, 0.0), 1.5)],
        Some([Decoration("plant", 20.0, 20.0), Decoration("couch", 180.0, 170.0)])),
      "MFG & Purchases" := DepartmentConfig(Position(700.0, 100.0), 350.0, 200.0, "#e8f5e9", "#4caf50",
        Desks([50.0, 120.0, 190.0], [40.0, 100.0, 160.0]),
        [MeetingArea(Point3(280.0, 100.0, 0.0), 2.0)],
        Some([Decoration("plant", 20.0, 20.0), Decoration("plant", 320.0, 20.0), Decoration("water", 320.0, 170.0)])),
      "CF PS MFG EGYPT" := DepartmentConfig(Position(1100.0, 100.0), 300.0, 200.0, "#e0f7fa", "#00bcd4",
        Desks([50.0, 120.0, 190.0], [50.0, 120.0]),
        [MeetingArea(Point3(250.0, 150.0, 0.0), 2.0)],
        Some([Decoration("plant", 20.0, 20.0), Decoration("couch", 250.0, 50.0)])),
      "F&A" := DepartmentConfig(Position(1450.0, 100.0), 250.0, 200.0, "#fff3e0", "#ff9800",
        Desks([50.0, 120.0], [50.0, 120.0]),
        [MeetingArea(Point3(200.0, 100.0, 0.0), 1.5)],
        Some([Decoration("plant", 20.0, 20.0), Decoration("water", 220.0, 170.0)])),
      "Line-1" := DepartmentConfig(Position(50.0, 350.0), 300.0, 200.0, "#fff3e0", "#ff9800",
        Desks([50.0, 120.0, 190.0], [50.0]) + [Point3(50.0, 120.0, 0.0)],
        [MeetingArea(Point3(250.0, 100.0, 0.0), 1.5)],
        Some([Decoration("plant", 20.0, 20.0), Decoration("couch", 250.0, 170.0)])),
      "QA" := DepartmentConfig(Position(400.0, 350.0), 250.0, 200.0, "#ffebee", "#f44336",
        Desks([50.0, 120.0], [50.0, 120.0]),
        [MeetingArea(Point3(200.0, 100.0, 0.0), 1.5)],
        Some([Decoration("plant", 20.0, 20.0), Decoration("water", 220.0, 30.0)]))]
  }

  /** The grid cell of the department at `index`: five columns 350 apart, rows 250 apart. */
  function GridPosition(index: nat): (r: Position)
    ensures r.x == 50.0 + (index % 5) as real * 350.0
    ensures r.y == 100.0 + (index / 5) as real * 250.0
    ensures 50.0 <= r.x <= 1450.0 && 100.0 <= r.y
  {
    Position(50.0 + (index % 5) as real * 350.0, 100.0 + (index / 5) as real * 250.0)
  }

  /** The default layout of the department at `index`. */
  function DefaultConfig(index: nat): DepartmentConfig {
    DepartmentConfig(GridPosition(index), 250.0, 200.0, "#f5f5f5", "#607d8b",
      Desks([50.0, 120.0], [50.0, 120.0]),
      [MeetingArea(Point3(200.0, 100.0, 0.0), 1.5)],
      Some([Decoration("plant", 20.0, 20.0), Decoration("couch", 200.0, 170.0)]))
  }

  /** The layouts once the loop has run over `departments`. */
  function FillIn(configs: map<string, DepartmentConfig>, departments: seq<string>): map<string, DepartmentConfig> {
    if departments == [] then configs
    else
      var n := |departments| - 1;
      var m := FillIn(configs, departments[..n]);
      if departments[n] in m then m else m[departments[n] := DefaultConfig(n)]
  }

  /** The loop keeps every layout it finds and adds one for each department
      that had none. */
  lemma {:induction false} FillInKeeps(configs: map<string, DepartmentConfig>, departments: seq<string>)
    ensures FillIn(configs, departments).Keys == configs.Keys + set d | d in departments
    ensures forall k :: k in configs ==> FillIn(configs, departments)[k] == configs[k]
  {
    if departments != [] {
      var n := |departments| - 1;
      FillInKeeps(configs, departments[..n]);
      assert departments == departments[..n] + [departments[n]];
    }
  }

  /** A department that had no layout gets the default one for its first
      position in the list. */
  lemma {:induction false} FillInDefaults(configs: map<string, DepartmentConfig>, departments: seq<string>)
    ensures forall d :: d in departments ==> d in FillIn(configs, departments)
    ensures forall d :: d in departments && d !in configs ==>
      FillIn(configs, departments)[d] == DefaultConfig(FirstIndex(departments, d))
  {
    FillInKeeps(configs, departments);
    if departments != [] {
      var n := |departments| - 1;
      var init := departments[..n];
      FillInKeeps(configs, init);
      FillInDefaults(configs, init);
      assert departments == init + [departments[n]];
      forall d | d in departments && d !in configs
        ensures FillIn(configs, departments)[d] == DefaultConfig(FirstIndex(departments, d))
      {
        if d in init {
          FirstIndexPrefix(init, departments[n], d);
        } else {
          assert FirstIndex(departments, d) == n;
        }
      }
    }
  }

  class Configs {
    var departmentConfigs: map<string, DepartmentConfig>

    /** The record as declared, before the fill-in loop. */
    constructor()
      ensures departmentConfigs == ExplicitConfigs()
    {
      departmentConfigs := ExplicitConfigs();
    }

    /** `departments.forEach((dept, index) => ...)`: a department without a
        layout gets the default one for its grid cell. */
    method AddDefaults(departments: seq<string>)
      modifies this
      ensures departmentConfigs == FillIn(old(departmentConfigs), departments)
    {
      for index := 0 to |departments|
        invariant departmentConfigs == FillIn(old(departmentConfigs), departments[..index])
      {
        assert departments[..index + 1][..index] == departments[..index];
        var dept := departments[index];
        if dept !in departmentConfigs {
          departmentConfigs := departmentConfigs[dept := DefaultConfig(index)];
        }
      }
      assert departments[..|departments|] == departments;
    }
  }

  /** After loading, every listed department has a layout, the hand-made ones
      are untouched, and each other one sits in its grid cell with four desks
      and one meeting area. */
  method Load(departments: seq<string>) returns (c: Configs)
    ensures c.departmentConfigs.Keys == ExplicitConfigs().Keys + set d | d in departments
    ensures forall k :: k in ExplicitConfigs() ==> c.departmentConfigs[k] == ExplicitConfigs()[k]
    ensures forall d :: d in departments && d !in ExplicitConfigs() ==>
      var cfg := c.departmentConfigs[d];
      && cfg.mapPosition == GridPosition(FirstIndex(departments, d))
      && cfg.width == 250.0 && cfg.height == 200.0
      && |cfg.deskPositions| == 4 && |cfg.meetingAreas| == 1
  {
    c := new Configs();
    c.AddDefaults(departments);
    FillInKeeps(ExplicitConfigs(), departments);
    FillInDefaults(ExplicitConfigs(), departments);
  }
}
