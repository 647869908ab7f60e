/** The directory (App.tsx): the list of employee records, the record being edited,
    the storage slot that mirrors the list, and the handlers that create, update,
    delete and select records. */
module App {

  import opened Wrappers
  import opened Types
  import EmployeeForm

  // ------------------------------------------------------------ list properties

  predicate HasId(s: seq<Employee>, id: string) {
    exists i :: 0 <= i < |s| && s[i].id == id
  }

  /** No two records share an id. */
  predicate UniqueIds(s: seq<Employee>) {
    forall i, j :: 0 <= i < j < |s| ==> s[i].id != s[j].id
  }

  /** Every record passes the form's validator. */
  predicate AllValid(s: seq<Employee>) {
    forall i :: 0 <= i < |s| ==> EmployeeForm.IsValid(s[i].data)
  }

  // ------------------------------------------------------------ list transforms

  /** The list after an update: every record with the edit target's id takes the
      form's fields and keeps its id; the others are kept as they are. */
  function UpdateById(s: seq<Employee>, id: string, d: EmployeeFormData): (r: seq<Employee>)
    ensures |r| == |s|
  {
    if s == [] then []
    else [if s[0].id == id then s[0].(data := d) else s[0]] + UpdateById(s[1..], id, d)
  }

  /** The list after a delete: the records whose id differs, in their order. */
  function RemoveById(s: seq<Employee>, id: string): (r: seq<Employee>)
    ensures |r| <= |s|
  {
    if s == [] then []
    else (if s[0].id == id then [] else [s[0]]) + RemoveById(s[1..], id)
  }

  /** Position by position, an update changes only the fields of the matching
      records: ids, positions and the other records stay. */
  lemma {:induction false} UpdateByIdAt(s: seq<Employee>, id: string, d: EmployeeFormData, i: nat)
    requires i < |s|
    ensures UpdateById(s, id, d)[i] == if s[i].id == id then s[i].(data := d) else s[i]
  {
    if i > 0 {
      UpdateByIdAt(s[1..], id, d, i - 1);
    }
  }

  lemma UpdateByIdKeepsIds(s: seq<Employee>, id: string, d: EmployeeFormData)
    ensures forall i :: 0 <= i < |s| ==> UpdateById(s, id, d)[i].id == s[i].id
  {
    forall i | 0 <= i < |s| {
      UpdateByIdAt(s, id, d, i);
    }
  }

  /** An update whose id matches no record leaves the list as it was. */
  lemma UpdateMissingIdIsIdentity(s: seq<Employee>, id: string, d: EmployeeFormData)
    requires !HasId(s, id)
    ensures UpdateById(s, id, d) == s
  {
    forall i | 0 <= i < |s| ensures UpdateById(s, id, d)[i] == s[i] {
      UpdateByIdAt(s, id, d, i);
    }
  }

  lemma UpdateKeepsUnique(s: seq<Employee>, id: string, d: EmployeeFormData)
    requires UniqueIds(s)
    ensures UniqueIds(UpdateById(s, id, d))
  {
    UpdateByIdKeepsIds(s, id, d);
  }

  /** A record is in the list after a delete exactly when it was in it before and
      does not carry the deleted id. */
  lemma {:induction false} RemoveByIdMembers(s: seq<Employee>, id: string, e: Employee)
    ensures e in RemoveById(s, id) <==> e in s && e.id != id
  {
    if s != [] {
      RemoveByIdMembers(s[1..], id, e);
      assert s == [s[0]] + s[1..];
    }
  }

  /** A delete works element by element, so it keeps the order of what remains. */
  lemma {:induction false} RemoveByIdConcat(a: seq<Employee>, b: seq<Employee>, id: string)
    ensures RemoveById(a + b, id) == RemoveById(a, id) + RemoveById(b, id)
  {
    if a != [] {
      RemoveByIdConcat(a[1..], b, id);
      assert (a + b)[1..] == a[1..] + b;
    } else {
      assert a + b == b;
    }
  }

  /** Deleting an id that no record carries leaves the list as it was. */
  lemma {:induction false} RemoveMissingIdIsIdentity(s: seq<Employee>, id: string)
    requires !HasId(s, id)
    ensures RemoveById(s, id) == s
  {
    if s != [] {
      assert !HasId(s[1..], id) by {
        forall i | 0 <= i < |s[1..]| ensures s[1..][i].id != id {
          assert s[1..][i] == s[i + 1];
        }
      }
      RemoveMissingIdIsIdentity(s[1..], id);
      assert s[0].id != id;
    }
  }

  /** With unique ids, deleting a present id removes exactly one record. */
  lemma {:induction false} RemovePresentIdLength(s: seq<Employee>, id: string)
    requires UniqueIds(s) && HasId(s, id)
    ensures |RemoveById(s, id)| == |s| - 1
  {
    var rest := s[1..];
    assert UniqueIds(rest) by {
      forall i, j | 0 <= i < j < |rest| ensures rest[i].id != rest[j].id {
        assert rest[i] == s[i + 1] && rest[j] == s[j + 1];
      }
    }
    if s[0].id == id {
      assert !HasId(rest, id) by {
        forall i | 0 <= i < |rest| ensures rest[i].id != id {
          assert rest[i] == s[i + 1];
        }
      }
      RemoveMissingIdIsIdentity(rest, id);
    } else {
      var k :| 0 <= k < |s| && s[k].id == id;
      assert rest[k - 1].id == id;
      RemovePresentIdLength(rest, id);
    }
  }

  lemma {:induction false} RemoveKeepsUnique(s: seq<Employee>, id: string)
    requires UniqueIds(s)
    ensures UniqueIds(RemoveById(s, id))
  {
    if s != [] {
      var rest := s[1..];
      assert UniqueIds(rest) by {
        forall i, j | 0 <= i < j < |rest| ensures rest[i].id != rest[j].id {
          assert rest[i] == s[i + 1] && rest[j] == s[j + 1];
        }
      }
      RemoveKeepsUnique(rest, id);
      var r := RemoveById(rest, id);
      if s[0].id != id {
        forall i | 0 <= i < |r| ensures r[i].id != s[0].id {
          RemoveByIdMembers(rest, id, r[i]);
          var k :| 0 <= k < |rest| && rest[k] == r[i];
          assert rest[k] == s[k + 1];
        }
        assert RemoveById(s, id) == [s[0]] + r;
      }
    }
  }

  /** A record created with an id no record carries keeps the ids unique. */
  lemma CreateKeepsUnique(s: seq<Employee>, e: Employee)
    requires UniqueIds(s) && !HasId(s, e.id)
    ensures UniqueIds([e] + s)
  {
    var r := [e] + s;
    forall i, j | 0 <= i < j < |r| ensures r[i].id != r[j].id {
      assert r[j] == s[j - 1];
      if i > 0 { assert r[i] == s[i - 1]; }
    }
  }

  /** Creating or updating with a draft the validator accepts keeps every record
      valid; a delete always does. */
  lemma CreateKeepsAllValid(s: seq<Employee>, e: Employee)
    requires AllValid(s) && EmployeeForm.IsValid(e.data)
    ensures AllValid([e] + s)
  {
    var c := [e] + s;
    forall i | 0 <= i < |c| ensures EmployeeForm.IsValid(c[i].data) {
      if i > 0 { assert c[i] == s[i - 1]; }
    }
  }

  lemma UpdateKeepsAllValid(s: seq<Employee>, id: string, d: EmployeeFormData)
    requires AllValid(s) && EmployeeForm.IsValid(d)
    ensures AllValid(UpdateById(s, id, d))
  {
    forall i | 0 <= i < |s| ensures EmployeeForm.IsValid(UpdateById(s, id, d)[i].data) {
      UpdateByIdAt(s, id, d, i);
    }
  }

  lemma RemoveKeepsAllValid(s: seq<Employee>, id: string)
    requires AllValid(s)
    ensures AllValid(RemoveById(s, id))
  {
    var r := RemoveById(s, id);
    forall i | 0 <= i < |r| ensures EmployeeForm.IsValid(r[i].data) {
      RemoveByIdMembers(s, id, r[i]);
      var k :| 0 <= k < |s| && s[k] == r[i];
    }
  }

  // ------------------------------------------------------------------ storage

  /** The key of the storage slot that holds the list. */
  const StorageKey := "employee_manager_data"

  /** What the storage slot can hold: the text `JSON.stringify` wrote for a list of
      records, or any other text, which `JSON.parse` rejects. */
  datatype Blob = Json(records: seq<Employee>) | Unparsable(text: string)

  /** `JSON.stringify` of the whole list. */
  function Serialize(s: seq<Employee>): Blob {
    Json(s)
  }

  /** `JSON.parse`; `None` is the exception it throws. */
  function Parse(b: Blob): Option<seq<Employee>> {
    match b
    case Json(records) => Some(records)
    case Unparsable(_) => None
  }

  /** The list the mount effect leaves: the parsed slot, or the initial empty list
      when the slot is missing or empty (`None`) or does not parse. */
  function Load(slot: Option<Blob>): (s: seq<Employee>)
    ensures slot.None? ==> s == []
    ensures slot.Some? && Parse(slot.value).None? ==> s == []
  {
    match slot
    case Some(b) => (match Parse(b) case Some(records) => records case None => [])
    case None => []
  }

  /** What was saved loads back unchanged. With `Blob` standing for the JSON text,
      this holds by construction of the encoding: it records that the save effect
      and the mount use the same encoding, not a property of `JSON.parse`. */
  lemma LoadAfterSave(s: seq<Employee>)
    ensures Load(Some(Serialize(s))) == s
  {
  }

  // --------------------------------------------------------------- app state

  /** The directory's state: the list, the record being edited, and the storage
      slot that the save effect rewrites whenever the list changes. */
  class AppState {
    var employees: seq<Employee>
    var editing: Option<Employee>
    var storage: Option<Blob>

    /** The slot holds the serialisation of the whole current list. */
    predicate Persisted()
      reads this
    {
      storage == Some(Serialize(employees))
    }

    /** The mount: the list is loaded from the slot and the save effect then writes
        the list back (so unparsable contents are replaced by the empty list). */
    constructor (slot: Option<Blob>)
      ensures employees == Load(slot) && editing == None && Persisted()
    {
      var loaded := Load(slot);
      employees := loaded;
      editing := None;
      storage := Some(Serialize(loaded));
    }

    /** The save effect: the whole list overwrites the slot. */
    method Save()
      modifies this`storage
      ensures Persisted()
    {
      storage := Some(Serialize(employees));
    }

    /** The form's submit target: with an edit target, the records carrying its id
        take the form's fields and the edit ends; without one, a record with a fresh
        id goes to the front of the list. */
    method AddOrUpdateEmployee(formData: EmployeeFormData, freshId: string)
      requires editing.None? ==> !HasId(employees, freshId)
      modifies this
      ensures old(editing).Some? ==>
        employees == UpdateById(old(employees), old(editing).value.id, formData)
      ensures old(editing).None? ==> employees == [Employee(freshId, formData)] + old(employees)
      ensures editing == None && Persisted()
      ensures UniqueIds(old(employees)) ==> UniqueIds(employees)
      ensures AllValid(old(employees)) && EmployeeForm.IsValid(formData) ==> AllValid(employees)
    {
      if editing.Some? {
        if UniqueIds(employees) {
          UpdateKeepsUnique(employees, editing.value.id, formData);
        }
        if AllValid(employees) && EmployeeForm.IsValid(formData) {
          UpdateKeepsAllValid(employees, editing.value.id, formData);
        }
        employees := UpdateById(employees, editing.value.id, formData);
        editing := None;
      } else {
        var newEmployee := Employee(freshId, formData);
        if UniqueIds(employees) {
          CreateKeepsUnique(employees, newEmployee);
        }
        if AllValid(employees) && EmployeeForm.IsValid(formData) {
          CreateKeepsAllValid(employees, newEmployee);
        }
        employees := [newEmployee] + employees;
      }
      Save();
    }

    /** The delete handler: only after confirmation, the records with that id go,
        and the edit ends when it targeted that id. */
    method DeleteEmployee(id: string, confirmed: bool)
      requires Persisted()
      modifies this
      ensures employees == if confirmed then RemoveById(old(employees), id) else old(employees)
      ensures editing ==
        if confirmed && old(editing).Some? && old(editing).value.id == id then None
        else old(editing)
      ensures Persisted()
      ensures UniqueIds(old(employees)) ==> UniqueIds(employees)
      ensures AllValid(old(employees)) ==> AllValid(employees)
    {
      if confirmed {
        if UniqueIds(employees) {
          RemoveKeepsUnique(employees, id);
        }
        if AllValid(employees) {
          RemoveKeepsAllValid(employees, id);
        }
        employees := RemoveById(employees, id);
        Save();
        if editing.Some? && editing.value.id == id {
          editing := None;
        }
      }
    }

    /** The edit button: the record becomes the edit target; the list is untouched. */
    method EditClick(e: Employee)
      modifies this`editing
      ensures editing == Some(e)
    {
      editing := Some(e);
    }

    /** The form's cancel button: the edit ends; the list is untouched. */
    method CancelEdit()
      modifies this`editing
      ensures editing == None
    {
      editing := None;
    }
  }

  /** One submit of the form wired to the directory: the form validates, a valid
      draft goes to AddOrUpdateEmployee, and when that ends an edit the form's
      population effect runs for the cleared edit target. */
  method SubmitForm(app: AppState, form: EmployeeForm.Form, freshId: string)
    requires app.Persisted() && form.editing == app.editing
    requires app.editing.None? ==> !HasId(app.employees, freshId)
    modifies app, form
    ensures app.Persisted() && form.editing == app.editing
    ensures !EmployeeForm.IsValid(old(form.draft)) ==>
      app.employees == old(app.employees) && app.editing == old(app.editing)
      && form.draft == old(form.draft)
    ensures EmployeeForm.IsValid(old(form.draft)) ==>
      && app.editing == None
      && form.draft == EmployeeForm.InitialState
      && app.employees == (if old(app.editing).Some?
                           then UpdateById(old(app.employees), old(app.editing).value.id,
                                           old(form.draft))
                           else [Employee(freshId, old(form.draft))] + old(app.employees))
    ensures form.errors == EmployeeForm.ErrorsOf(old(form.draft))
    ensures UniqueIds(old(app.employees)) ==> UniqueIds(app.employees)
    ensures AllValid(old(app.employees)) ==> AllValid(app.employees)
  {
    var submitted := form.Submit();
    if submitted.Some? {
      var wasEditing := app.editing.Some?;
      app.AddOrUpdateEmployee(submitted.value, freshId);
      if wasEditing {
        form.Populate(app.editing);
      }
    }
  }

  /** A delete from the table wired to the form: when the delete ends the edit,
      the form's population effect runs for the cleared edit target and shows the
      blank draft; otherwise the form is untouched. */
  method DeleteFromTable(app: AppState, form: EmployeeForm.Form, id: string, confirmed: bool)
    requires app.Persisted() && form.editing == app.editing
    modifies app, form
    ensures app.employees ==
      if confirmed then RemoveById(old(app.employees), id) else old(app.employees)
    ensures app.editing ==
      if confirmed && old(app.editing).Some? && old(app.editing).value.id == id then None
      else old(app.editing)
    ensures app.Persisted() && form.editing == app.editing
    ensures app.editing != old(app.editing) ==>
      form.draft == EmployeeForm.InitialState && form.errors == map[]
    ensures app.editing == old(app.editing) ==>
      form.draft == old(form.draft) && form.errors == old(form.errors)
    ensures UniqueIds(old(app.employees)) ==> UniqueIds(app.employees)
    ensures AllValid(old(app.employees)) ==> AllValid(app.employees)
  {
    var before := app.editing;
    app.DeleteEmployee(id, confirmed);
    if app.editing != before {
      form.Populate(app.editing);
    }
  }

  /** The edit button wired to the form: a new edit target makes the form show a
      copy of that record with no errors; clicking the record already being edited
      changes nothing, since the population effect only runs on a change. */
  method EditFromTable(app: AppState, form: EmployeeForm.Form, e: Employee)
    requires app.Persisted() && form.editing == app.editing
    modifies app, form
    ensures app.editing == Some(e) && form.editing == Some(e)
    ensures app.employees == old(app.employees) && app.Persisted()
    ensures old(app.editing) != Some(e) ==>
      form.draft == EmployeeForm.DraftFor(Some(e)) && form.errors == map[]
    ensures old(app.editing) == Some(e) ==>
      form.draft == old(form.draft) && form.errors == old(form.errors)
  {
    var before := app.editing;
    app.EditClick(e);
    if app.editing != before {
      form.Populate(app.editing);
    }
  }

  /** The form's cancel button wired to the directory: when an edit was under way
      the form shows the blank draft with no errors; otherwise nothing changes. */
  method CancelFromForm(app: AppState, form: EmployeeForm.Form)
    requires app.Persisted() && form.editing == app.editing
    modifies app, form
    ensures app.editing == None && form.editing == None
    ensures app.employees == old(app.employees) && app.Persisted()
    ensures old(app.editing).Some? ==>
      form.draft == EmployeeForm.InitialState && form.errors == map[]
    ensures old(app.editing).None? ==>
      form.draft == old(form.draft) && form.errors == old(form.errors)
  {
    var before := app.editing;
    app.CancelEdit();
    if app.editing != before {
      form.Populate(app.editing);
    }
  }
}
