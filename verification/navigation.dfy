/** The department stepper of components/virtual-office/navigation.tsx: the
    previous and next department around the current one, and the search that
    jumps to the first department whose name contains the query. The handlers
    return the department they would pass to `onDepartmentChange`, or `None`
    when they make no call. */
module Navigation {
  import opened Base
  import opened Text

  /** `departments.indexOf(current)`: the first position, or -1. */
  function IndexOf(departments: seq<string>, current: string): (r: int)
    ensures -1 <= r < |departments|
    ensures r >= 0 ==> departments[r] == current && forall j :: 0 <= j < r ==> departments[j] != current
    ensures r == -1 <==> current !in departments
  {
    if departments == [] then -1
    else if departments[0] == current then 0
    else
      var k := IndexOf(departments[1..], current);
      if k == -1 then -1 else k + 1
  }

  /** `currentIndex > 0 ? departments[currentIndex - 1] : null`. */
  function PrevDepartment(departments: seq<string>, current: string): (r: Option<string>)
    ensures r.Some? <==> IndexOf(departments, current) > 0
    ensures r.Some? ==> r.value == departments[IndexOf(departments, current) - 1]
  {
    var i := IndexOf(departments, current);
    if i > 0 then Some(departments[i - 1]) else None
  }

  /** `currentIndex < departments.length - 1 ? departments[currentIndex + 1] : null`;
      an absent department has index -1, so its next one is the first. */
  function NextDepartment(departments: seq<string>, current: string): (r: Option<string>)
    ensures r.Some? <==> IndexOf(departments, current) < |departments| - 1
    ensures r.Some? ==> r.value == departments[IndexOf(departments, current) + 1]
  {
    var i := IndexOf(departments, current);
    if i < |departments| - 1 then Some(departments[i + 1]) else None
  }

  /** `if (department) onDepartmentChange(department)`: null and the empty
      name are both falsy. */
  function CallIfTruthy(department: Option<string>): (r: Option<string>)
    ensures r.Some? <==> department.Some? && department.value != ""
    ensures r.Some? ==> r == department
  {
    if department.Some? && department.value != "" then department else None
  }

  /** The previous button: calls back with the department before the current
      one exactly when there is one and its name is not empty. */
  function HandlePrevious(departments: seq<string>, current: string): (r: Option<string>)
    ensures r.Some? <==> IndexOf(departments, current) > 0 && departments[IndexOf(departments, current) - 1] != ""
    ensures r.Some? ==> r.value == departments[IndexOf(departments, current) - 1]
  {
    CallIfTruthy(PrevDepartment(departments, current))
  }

  /** The next button: calls back with the department after the current one
      exactly when there is one and its name is not empty. */
  function HandleNext(departments: seq<string>, current: string): (r: Option<string>)
    ensures r.Some? <==> IndexOf(departments, current) < |departments| - 1 && departments[IndexOf(departments, current) + 1] != ""
    ensures r.Some? ==> r.value == departments[IndexOf(departments, current) + 1]
  {
    CallIfTruthy(NextDepartment(departments, current))
  }

  /** `dept.toLowerCase().includes(searchQuery.toLowerCase())`. */
  predicate MatchesSearch(department: string, query: string) {
    Contains(Lower(department), Lower(query))
  }

  /** `departments.filter(...)`, in list order. */
  function FilteredDepartments(departments: seq<string>, query: string): (r: seq<string>)
    ensures |r| <= |departments|
    ensures forall d :: d in r <==> d in departments && MatchesSearch(d, query)
  {
    if departments == [] then []
    else if MatchesSearch(departments[0], query) then [departments[0]] + FilteredDepartments(departments[1..], query)
    else FilteredDepartments(departments[1..], query)
  }

  /** The search submits the first department of the filtered list, if any. */
  function HandleSearch(departments: seq<string>, query: string): (r: Option<string>)
    ensures r.Some? ==> r.value in departments && MatchesSearch(r.value, query)
    ensures r.None? <==> forall d :: d in departments ==> !MatchesSearch(d, query)
  {
    var filtered := FilteredDepartments(departments, query);
    if |filtered| > 0 then Some(filtered[0]) else None
  }

  // ---------------------------------------------------------------------------
  // What the stepper promises.

  /** The search picks the first department in list order whose name matches,
      and makes no call when none matches. */
  lemma {:induction false} SearchPicksFirstMatch(departments: seq<string>, query: string)
    ensures HandleSearch(departments, query).None? <==> forall j :: 0 <= j < |departments| ==> !MatchesSearch(departments[j], query)
    ensures HandleSearch(departments, query).Some? ==>
      exists i :: 0 <= i < |departments| && departments[i] == HandleSearch(departments, query).value
        && MatchesSearch(departments[i], query)
        && forall j :: 0 <= j < i ==> !MatchesSearch(departments[j], query)
  {
    if departments != [] {
      SearchPicksFirstMatch(departments[1..], query);
      if !MatchesSearch(departments[0], query) && HandleSearch(departments, query).Some? {
        var i :| 0 <= i < |departments[1..]| && departments[1..][i] == HandleSearch(departments, query).value
          && MatchesSearch(departments[1..][i], query)
          && forall j :: 0 <= j < i ==> !MatchesSearch(departments[1..][j], query);
        assert departments[i + 1] == departments[1..][i];
        assert forall j :: 1 <= j < i + 1 ==> departments[j] == departments[1..][j - 1];
      }
    }
  }

  /** The empty query matches every department, so the search goes to the first. */
  lemma EmptySearchPicksFirst(departments: seq<string>)
    requires |departments| > 0
    ensures HandleSearch(departments, "") == Some(departments[0])
  {
    assert Lower("") == "";
    ContainsEmpty(Lower(departments[0]));
  }

  /** On a list without repeats, stepping back and then forward returns to the
      department one started from, and so does stepping forward then back. */
  lemma PrevNextInverse(departments: seq<string>, current: string)
    requires forall i, j :: 0 <= i < j < |departments| ==> departments[i] != departments[j]
    ensures PrevDepartment(departments, current).Some? ==>
      NextDepartment(departments, PrevDepartment(departments, current).value) == Some(current)
    ensures NextDepartment(departments, current).Some? && current in departments ==>
      PrevDepartment(departments, NextDepartment(departments, current).value) == Some(current)
  {
    var i := IndexOf(departments, current);
    if i > 0 {
      assert IndexOf(departments, departments[i - 1]) == i - 1;
    }
    if 0 <= i < |departments| - 1 {
      assert IndexOf(departments, departments[i + 1]) == i + 1;
    }
  }

  /** A department that is not in the list has no previous one, and its next
      one is the first department. */
  lemma AbsentCurrent(departments: seq<string>, current: string)
    requires current !in departments
    ensures PrevDepartment(departments, current) == None
    ensures |departments| > 0 ==> NextDepartment(departments, current) == Some(departments[0])
    ensures |departments| == 0 ==> NextDepartment(departments, current) == None
  {
  }
}
