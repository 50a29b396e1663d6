/** The employee store of app/api/eve-employees/route.ts: a module-level list of
    AI assistants and human employees, and the POST handler that validates a
    request and then overwrites the caller's own entry or appends a new one. */
module EveEmployees {
  import opened Base

  /** One stored entry. The seeded assistants carry no role, status or update time. */
  datatype Employee = Employee(
    id: string,
    name: string,
    department: string,
    role: Option<string>,
    position: seq<real>,
    isAI: bool,
    photoUrl: string,
    introduction: string,
    createdBy: string,
    status: Option<string>,
    lastUpdated: Option<string>)

  /** The JSON body of a POST; an absent field is `None`. */
  datatype PostData = PostData(
    name: Option<string>,
    department: Option<string>,
    role: Option<string>,
    position: Option<seq<real>>,
    photoUrl: Option<string>,
    introduction: Option<string>,
    createdBy: Option<string>,
    status: Option<string>)

  /** What the session check reports. */
  datatype Auth = Auth(isAuthenticated: bool, userId: Option<string>)

  datatype Response = Unauthorized | BadRequest | ServerError | Saved(employee: Employee)
  {
    function Status(): int {
      match this
      case Unauthorized => 401
      case BadRequest => 400
      case ServerError => 500
      case Saved(_) => 200
    }
  }

  const DefaultPhoto: string := "/placeholder.svg?height=80&width=80"

  /** `value || fallback` for a string field: absent and empty are both falsy. */
  function OrElse(value: Option<string>, fallback: string): (r: string)
    ensures value.Some? && value.value != "" ==> r == value.value
    ensures value.None? || value.value == "" ==> r == fallback
  {
    if value.Some? && value.value != "" then value.value else fallback
  }

  /** `!data.name || !data.department`. */
  predicate Incomplete(data: PostData) {
    OrElse(data.name, "") == "" || OrElse(data.department, "") == ""
  }

  /** `data.createdBy || auth.user?.id || "unknown"`. */
  function Owner(auth: Auth, data: PostData): (r: string)
    ensures r != ""
  {
    OrElse(data.createdBy, OrElse(auth.userId, "unknown"))
  }

  /** The record the request describes, with the defaults filled in. An array is
      truthy even when empty, so any given position is kept. */
  function NewEntry(auth: Auth, data: PostData, newId: string, now: string): (r: Employee)
    requires !Incomplete(data)
    ensures !r.isAI && r.createdBy == Owner(auth, data) && r.id == newId
    ensures r.role.Some? && r.status.Some? && r.lastUpdated == Some(now)
    ensures r.name == data.name.value && r.department == data.department.value
    ensures data.role.Some? && data.role.value != "" ==> r.role == data.role
    ensures data.role.None? || data.role.value == "" ==> r.role == Some("Employee")
    ensures data.position.Some? ==> r.position == data.position.value
    ensures data.position.None? ==> r.position == [0.0, 0.5, 0.0]
    ensures data.photoUrl.Some? && data.photoUrl.value != "" ==> r.photoUrl == data.photoUrl.value
    ensures data.photoUrl.None? || data.photoUrl.value == "" ==> r.photoUrl == DefaultPhoto
    ensures data.introduction.Some? ==> r.introduction == data.introduction.value
    ensures data.introduction.None? ==> r.introduction == ""
    ensures data.status.Some? && data.status.value != "" ==> r.status == data.status
    ensures data.status.None? || data.status.value == "" ==> r.status == Some("online")
  {
    Employee(newId, data.name.value, data.department.value, Some(OrElse(data.role, "Employee")),
      data.position.GetOr([0.0, 0.5, 0.0]), false, OrElse(data.photoUrl, DefaultPhoto),
      OrElse(data.introduction, ""), Owner(auth, data), Some(OrElse(data.status, "online")), Some(now))
  }

  /** `findIndex(emp => emp.createdBy === owner && emp.isAI === false)`. */
  function FindOwn(store: seq<Employee>, owner: string): (r: Option<nat>)
    ensures r.Some? ==> r.value < |store| && store[r.value].createdBy == owner && !store[r.value].isAI
    ensures r.Some? ==> forall j :: 0 <= j < r.value ==> store[j].createdBy != owner || store[j].isAI
    ensures r.None? <==> forall j :: 0 <= j < |store| ==> store[j].createdBy != owner || store[j].isAI
  {
    if store == [] then None
    else if store[0].createdBy == owner && !store[0].isAI then Some(0)
    else match FindOwn(store[1..], owner)
      case None => None
      case Some(k) => Some(k + 1)
  }

  /** The store after saving `e`: the owner's human entry takes every field of
      `e` but keeps its id; without one, `e` is appended. */
  function Upsert(store: seq<Employee>, e: Employee): (r: seq<Employee>)
    ensures |r| == |store| || r == store + [e]
    ensures forall i :: 0 <= i < |store| && (store[i].isAI || store[i].createdBy != e.createdBy) ==> r[i] == store[i]
  {
    match FindOwn(store, e.createdBy)
    case Some(k) => store[k := e.(id := store[k].id)]
    case None => store + [e]
  }

  /** No owner has two human entries. */
  ghost predicate OneEntryPerOwner(store: seq<Employee>) {
    forall i, j :: 0 <= i < j < |store| && !store[i].isAI && !store[j].isAI ==> store[i].createdBy != store[j].createdBy
  }

  /** Where the owner's entry sits once saved: its old slot, or the new last one. */
  function Slot(store: seq<Employee>, owner: string): nat {
    FindOwn(store, owner).GetOr(|store|)
  }

  /** Saving grows the store by at most one, never touches an assistant or
      another owner's entry, keeps one human entry per owner, and leaves the
      saved record, under its kept id, as the owner's entry. */
  lemma UpsertLaws(store: seq<Employee>, e: Employee)
    requires !e.isAI
    ensures |Upsert(store, e)| == |store| + (if FindOwn(store, e.createdBy).Some? then 0 else 1)
    ensures forall i :: 0 <= i < |store| && store[i].isAI ==> Upsert(store, e)[i] == store[i]
    ensures forall i :: 0 <= i < |store| && store[i].createdBy != e.createdBy ==> Upsert(store, e)[i] == store[i]
    ensures OneEntryPerOwner(store) ==> OneEntryPerOwner(Upsert(store, e))
    ensures FindOwn(Upsert(store, e), e.createdBy) == Some(Slot(store, e.createdBy))
    ensures Upsert(store, e)[Slot(store, e.createdBy)]
         == e.(id := if Slot(store, e.createdBy) < |store| then store[Slot(store, e.createdBy)].id else e.id)
  {
    UpsertFrame(store, e);
    UpsertSlot(store, e);
    if OneEntryPerOwner(store) {
      UpsertKeepsOneEntry(store, e);
    }
  }

  /** Saving touches only the owner's slot, or appends one entry. */
  lemma UpsertFrame(store: seq<Employee>, e: Employee)
    ensures |Upsert(store, e)| == |store| + (if FindOwn(store, e.createdBy).Some? then 0 else 1)
    ensures forall i :: 0 <= i < |store| && i != Slot(store, e.createdBy) ==> Upsert(store, e)[i] == store[i]
    ensures forall i :: 0 <= i < |store| && store[i].isAI ==> i != Slot(store, e.createdBy)
    ensures forall i :: 0 <= i < |store| && store[i].createdBy != e.createdBy ==> i != Slot(store, e.createdBy)
  {
  }

  /** The saved record sits in the slot, and the owner is found there. */
  lemma UpsertSlot(store: seq<Employee>, e: Employee)
    requires !e.isAI
    ensures Slot(store, e.createdBy) < |Upsert(store, e)|
    ensures Upsert(store, e)[Slot(store, e.createdBy)]
         == e.(id := if Slot(store, e.createdBy) < |store| then store[Slot(store, e.createdBy)].id else e.id)
    ensures FindOwn(Upsert(store, e), e.createdBy) == Some(Slot(store, e.createdBy))
  {
    var r := Upsert(store, e);
    var k := Slot(store, e.createdBy);
    UpsertFrame(store, e);
    assert forall j :: 0 <= j < k ==> r[j] == store[j];
  }

  lemma UpsertKeepsOneEntry(store: seq<Employee>, e: Employee)
    requires !e.isAI && OneEntryPerOwner(store)
    ensures OneEntryPerOwner(Upsert(store, e))
  {
    UpsertFrame(store, e);
    UpsertSlot(store, e);
  }

  /** Saving the same request again, under whatever new id, changes nothing more. */
  lemma UpsertAgain(store: seq<Employee>, e: Employee, otherId: string)
    requires !e.isAI
    ensures Upsert(Upsert(store, e), e.(id := otherId)) == Upsert(store, e)
  {
    UpsertLaws(store, e);
  }

  class Store {
    var employees: seq<Employee>

    /** The three seeded assistants. */
    constructor()
      ensures |employees| == 3
      ensures forall i :: 0 <= i < 3 ==> employees[i].isAI
      ensures OneEntryPerOwner(employees)
    {
      employees := [
        Employee("eve-1", "HR Assistant", "HR", None, [-15.0, 0.5, -5.0], true, DefaultPhoto,
          "I'm your HR assistant, ready to help with all HR-related queries.", "user-1", None, None),
        Employee("eve-2", "IT Support", "IT", None, [-5.0, 0.5, -15.0], true, DefaultPhoto,
          "I provide IT support and troubleshooting assistance.", "user-2", None, None),
        Employee("eve-3", "QA Tester", "QA", None, [5.0, 0.5, -15.0], true, DefaultPhoto,
          "I help with quality assurance and testing procedures.", "user-3", None, None)];
    }

    /** `POST`: refuses an unauthenticated caller (401), a body that is not
        JSON (500) and a body without name or department (400), all without
        touching the store; otherwise saves the entry and returns it. The id and
        the time stamp are the caller's clock and random readings. */
    method Post(auth: Auth, body: Option<PostData>, newId: string, now: string) returns (resp: Response)
      modifies this
      ensures !auth.isAuthenticated ==> resp == Unauthorized
      ensures auth.isAuthenticated && body.None? ==> resp == ServerError
      ensures auth.isAuthenticated && body.Some? && Incomplete(body.value) ==> resp == BadRequest
      ensures !resp.Saved? ==> employees == old(employees)
      ensures resp.Saved? <==> auth.isAuthenticated && body.Some? && !Incomplete(body.value)
      ensures resp.Saved? ==>
        var e := NewEntry(auth, body.value, newId, now);
        && employees == Upsert(old(employees), e)
        && resp.employee == e.(id := resp.employee.id)
        && resp.employee in employees
        && resp.employee.id == match FindOwn(old(employees), e.createdBy)
             case Some(k) => old(employees)[k].id
             case None => newId
    {
      if !auth.isAuthenticated {
        return Unauthorized;
      }
      if body.None? {
        return ServerError;
      }
      var data := body.value;
      if Incomplete(data) {
        return BadRequest;
      }
      var createdBy := Owner(auth, data);
      var existing := FindOwn(employees, createdBy);
      var newEve := NewEntry(auth, data, newId, now);
      if existing.Some? {
        var k := existing.value;
        employees := employees[k := newEve.(id := employees[k].id)];
        newEve := employees[k];
      } else {
        employees := employees + [newEve];
        assert employees[|employees| - 1] == newEve;
      }
      resp := Saved(newEve);
    }
  }

  /** A second request from the same owner overwrites the first one's entry and
      keeps its id, so the store does not grow again. */
  method PostTwice(s: Store, auth: Auth, data: PostData, id1: string, id2: string, now: string)
      returns (first: Response, second: Response)
    requires auth.isAuthenticated && !Incomplete(data)
    modifies s
    ensures first.Saved? && second.Saved?
    ensures second.employee.id == first.employee.id
    ensures |s.employees| == |old(s.employees)| + (if FindOwn(old(s.employees), Owner(auth, data)).Some? then 0 else 1)
  {
    ghost var before := s.employees;
    ghost var owner := Owner(auth, data);
    UpsertLaws(before, NewEntry(auth, data, id1, now));
    first := s.Post(auth, Some(data), id1, now);
    ghost var middle := s.employees;
    ghost var k := Slot(before, owner);
    assert first.employee.id == middle[k].id;
    UpsertLaws(middle, NewEntry(auth, data, id2, now));
    second := s.Post(auth, Some(data), id2, now);
    assert Slot(middle, owner) == k;
  }
}
