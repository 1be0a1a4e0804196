/** The employees page: the local copy of the employee table, which employee
    the form is editing, and whether the form is shown. A delete or submit
    changes the table only after its write has succeeded; a failed write
    leaves the whole page state as it was. */
module EmployeesPage {
  import opened Records
  import Text
  import EmployeeForm

  /** `editingId ? employees[editingId] : null` as the page computes it: the
      stored record under the key, which carries no `id` field of its own. */
  function FormEmployeeAsWritten(employees: map<string, Record>, editingId: Option<string>): (r: Option<Record>)
    ensures r.Some? <==> editingId.Some? && editingId.value != "" && editingId.value in employees
    ensures r.Some? ==> r.value == employees[editingId.value]
  {
    if editingId.Some? && editingId.value != "" && editingId.value in employees
    then Some(employees[editingId.value]) else None
  }

  /** The record handed to the form, with the key it is stored under added as
      its `id`, so that submitting the form edits that key. */
  function FormEmployee(employees: map<string, Record>, editingId: Option<string>): (r: Option<Record>)
    ensures r.Some? <==> editingId.Some? && editingId.value != "" && editingId.value in employees
    ensures r.Some? ==> r.value == employees[editingId.value]["id" := Str(editingId.value)]
  {
    if editingId.Some? && editingId.value != "" && editingId.value in employees
    then Some(employees[editingId.value]["id" := Str(editingId.value)]) else None
  }

  /** Where a submit goes: an edit of a key when the form passed a truthy
      id, an add otherwise. */
  datatype Route = EditKey(key: string) | Add

  /** The property key a value names in `employees/${id}` and `prev[id]`:
      text as it is, a number in decimal, an array joined with `,`. */
  function KeyOf(v: Value): string {
    match v
    case Str(s) => s
    case Num(n) => Text.IntToString(n)
    case Strs(items) => Text.Join(items, ",")
  }

  /** `if (id)`: any truthy id edits the key it names; a missing, empty or zero id adds. */
  function RouteOf(id: Option<Value>): (r: Route)
    ensures r.EditKey? <==> id.Some? && Truthy(id.value)
    ensures r.EditKey? ==> r.key == KeyOf(id.value)
    ensures r.EditKey? && id.value.Str? ==> r.key == id.value.s
  {
    if id.Some? && Truthy(id.value) then EditKey(KeyOf(id.value)) else Add
  }

  /** A numeric id edits the employee under its decimal key. */
  lemma NumericIdEditsDecimalKey()
    ensures RouteOf(Some(Num(5))) == EditKey("5")
    ensures RouteOf(Some(Num(-12))) == EditKey("-12")
    ensures RouteOf(Some(Num(0))) == Add
  {
    assert Text.NatToString(5) == "5";
    assert Text.NatToString(12) == Text.NatToString(1) + [Text.Digit(2)] == "12";
  }

  /** As written, an employee added through this page and then edited is
      added a second time: its stored record is the form's eight fields, no
      `id`, so the form submits `employee?.id` as `undefined`. */
  lemma EditOfAddedEmployeeAddsCopy(employees: map<string, Record>, key: string, formData: Record)
    requires key != "" && formData.Keys == EmployeeForm.PayloadFields
    ensures var stored := employees[key := formData];
      RouteOf(FieldOf(FormEmployeeAsWritten(stored, Some(key)), "id")) == Add
  {
    assert "id" !in EmployeeForm.PayloadFields;
  }

  /** With the key added as `id`, editing any listed employee updates that key. */
  lemma EditRoutesToKey(employees: map<string, Record>, key: string)
    requires key != "" && key in employees
    ensures RouteOf(FieldOf(FormEmployee(employees, Some(key)), "id")) == EditKey(key)
  {
  }

  /** The eight submitted fields do not include `id`, so the added `id` does
      not change what the form shows or sends. */
  lemma IdNotAFormField(e: Record, key: string)
    ensures forall k :: k in EmployeeForm.PayloadFields ==>
      (k in e["id" := Str(key)] <==> k in e) && (k in e ==> e["id" := Str(key)][k] == e[k])
  {
  }

  /** `{ ...prev[id], ...formData }`: the old record with the form's fields winning. */
  function Merged(employees: map<string, Record>, key: string, formData: Record): (r: Record)
    ensures r.Keys == (if key in employees then employees[key].Keys else {}) + formData.Keys
    ensures forall k :: k in formData ==> r[k] == formData[k]
    ensures key in employees ==> forall k :: k in employees[key] && k !in formData ==> r[k] == employees[key][k]
  {
    Overlay(if key in employees then employees[key] else map[], formData)
  }

  class EmployeesPage {
    var employees: map<string, Record>
    var editingId: Option<string>
    var showForm: bool

    /** The state after loading the stored table. */
    constructor (employees: map<string, Record>)
      ensures this.employees == employees && editingId == None && !showForm
    {
      this.employees := employees;
      editingId := None;
      showForm := false;
    }

    /** The record the form is opened with. */
    function FormRecord(): Option<Record>
      reads this
    {
      FormEmployee(employees, editingId)
    }

    /** `handleEdit(id)`: the form opens on that employee. */
    method HandleEdit(id: string)
      modifies this`editingId, this`showForm
      ensures editingId == Some(id) && showForm
      ensures employees == old(employees)
      ensures id != "" && id in employees ==> FormRecord() == Some(employees[id]["id" := Str(id)])
      ensures !(id != "" && id in employees) ==> FormRecord() == None
    {
      editingId := Some(id);
      showForm := true;
    }

    /** The "Add New Employee" button: the form opens empty. */
    method OpenAdd()
      modifies this`editingId, this`showForm
      ensures editingId == None && showForm
      ensures FormRecord() == None
    {
      editingId := None;
      showForm := true;
    }

    /** `handleDelete(id)`: after confirmation and a successful remove,
        exactly `id` is gone; otherwise nothing changes. */
    method HandleDelete(id: string, confirmed: bool, writeOk: bool)
      modifies this`employees
      ensures confirmed && writeOk ==> employees == old(employees) - {id}
      ensures !(confirmed && writeOk) ==> employees == old(employees)
    {
      if confirmed && writeOk {
        employees := employees - {id};
      }
    }

    /** `handleFormSubmit(formData, id)`: a truthy id merges the form into
        that employee, anything else stores the form as a new employee under
        the freshly pushed key; then the form closes. A failed write throws
        before any state changes. */
    method HandleFormSubmit(formData: Record, id: Option<Value>, newKey: string, writeOk: bool)
      modifies this`employees, this`editingId, this`showForm
      ensures writeOk && RouteOf(id).EditKey? ==>
        employees == old(employees)[RouteOf(id).key := Merged(old(employees), RouteOf(id).key, formData)]
      ensures writeOk && RouteOf(id).Add? ==> employees == old(employees)[newKey := formData]
      ensures writeOk ==> !showForm && editingId == None
      ensures !writeOk ==>
        employees == old(employees) && showForm == old(showForm) && editingId == old(editingId)
    {
      if !writeOk {
        return;
      }
      match RouteOf(id) {
        case EditKey(key) =>
          employees := employees[key := Merged(employees, key, formData)];
        case Add =>
          employees := employees[newKey := formData];
      }
      showForm := false;
      editingId := None;
    }

    /** `handleCancel` */
    method HandleCancel()
      modifies this`editingId, this`showForm
      ensures editingId == None && !showForm
    {
      showForm := false;
      editingId := None;
    }
  }

  /** An edit touches only its own key. */
  lemma EditLeavesOthers(employees: map<string, Record>, key: string, formData: Record)
    ensures forall k :: k in employees && k != key ==>
      k in employees[key := Merged(employees, key, formData)]
      && employees[key := Merged(employees, key, formData)][k] == employees[k]
    ensures employees[key := Merged(employees, key, formData)].Keys == employees.Keys + {key}
  {
  }
}
