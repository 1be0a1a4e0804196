/** The HR employee form: eight text fields, `status` starting as `Active`,
    a prefill from the employee being edited, and a submit that refuses a
    record missing any of the four required fields. */
module EmployeeForm {
  import opened Records

  /** The names of the eight fields the form submits. */
  const PayloadFields: set<string> :=
    {"name", "email", "contact", "department", "status", "position", "salaryGrade", "hireDate"}

  /** The required-field check: name, email, department and position must be
      non-empty. It tests emptiness only, so white space counts as filled. */
  predicate RequiredFilled(name: string, email: string, department: string, position: string) {
    name != "" && email != "" && department != "" && position != ""
  }

  /** The check does not trim: required fields holding only a blank pass. */
  lemma BlankFieldsPass()
    ensures RequiredFilled(" ", " ", " ", " ")
  {
  }

  /** The eight submitted fields as one record. */
  function Payload(name: string, email: string, contact: string, department: string,
                   status: string, position: string, salaryGrade: string, hireDate: string): (p: Record)
    ensures p.Keys == PayloadFields
    ensures p["name"] == Str(name) && p["email"] == Str(email)
    ensures p["contact"] == Str(contact) && p["department"] == Str(department)
    ensures p["status"] == Str(status) && p["position"] == Str(position)
    ensures p["salaryGrade"] == Str(salaryGrade) && p["hireDate"] == Str(hireDate)
  {
    var a := map["name" := Str(name), "email" := Str(email)];
    var b := a["contact" := Str(contact)];
    var c := b["department" := Str(department)];
    var d := c["status" := Str(status)];
    var e := d["position" := Str(position)];
    var f := e["salaryGrade" := Str(salaryGrade)];
    var g := f["hireDate" := Str(hireDate)];
    assert g["name"] == Str(name) && g["email"] == Str(email);
    assert g["contact"] == Str(contact) && g["department"] == Str(department);
    assert g["status"] == Str(status) && g["position"] == Str(position);
    g
  }

  /** Opening an employee whose eight fields are all filled in and submitting
      unchanged sends back exactly those eight fields. */
  lemma PrefillSubmitRoundTrip(e: Record)
    requires forall k :: k in PayloadFields ==> k in e && e[k].Str? && e[k].s != ""
    ensures forall k :: k in PayloadFields ==>
      Payload(TextOr(e, "name", ""), TextOr(e, "email", ""), TextOr(e, "contact", ""),
              TextOr(e, "department", ""), TextOr(e, "status", "Active"), TextOr(e, "position", ""),
              TextOr(e, "salaryGrade", ""), TextOr(e, "hireDate", ""))[k] == e[k]
  {
  }

  /** How a submit ends: refused, or handed to the page with the payload and `employee?.id`. */
  datatype SubmitResult = Rejected | Submitted(data: Record, id: Option<Value>)

  class EmployeeForm {
    var name: string
    var email: string
    var contact: string
    var department: string
    var status: string
    var position: string
    var salaryGrade: string
    var hireDate: string
    /** The `employee` prop: the record being edited, `None` when adding. */
    var employee: Option<Record>

    /** Mounting: every field empty except `status`, then the prefill effect runs. */
    constructor (employee: Option<Record>)
      ensures this.employee == employee
      ensures employee.None? ==>
        (name == "" && email == "" && contact == "" && department == ""
         && status == "Active" && position == "" && salaryGrade == "" && hireDate == "")
      ensures employee.Some? ==> Prefilled(employee.value)
    {
      name, email, contact, department := "", "", "", "";
      status, position, salaryGrade, hireDate := "Active", "", "", "";
      this.employee := None;
      new;
      Prefill(employee);
    }

    /** Each field holds the employee's value, or its default when that is missing or empty. */
    predicate Prefilled(e: Record)
      reads this
    {
      && name == TextOr(e, "name", "") && email == TextOr(e, "email", "")
      && contact == TextOr(e, "contact", "") && department == TextOr(e, "department", "")
      && status == TextOr(e, "status", "Active") && position == TextOr(e, "position", "")
      && salaryGrade == TextOr(e, "salaryGrade", "") && hireDate == TextOr(e, "hireDate", "")
    }

    /** The effect on `[employee]`: with an employee every field is copied,
        a missing one as `''` (`'Active'` for status); without one nothing changes. */
    method Prefill(employee: Option<Record>)
      modifies this
      ensures this.employee == employee
      ensures employee.Some? ==> Prefilled(employee.value)
      ensures employee.None? ==>
        (name == old(name) && email == old(email) && contact == old(contact)
         && department == old(department) && status == old(status) && position == old(position)
         && salaryGrade == old(salaryGrade) && hireDate == old(hireDate))
    {
      this.employee := employee;
      if employee.Some? {
        var e := employee.value;
        name := TextOr(e, "name", "");
        email := TextOr(e, "email", "");
        contact := TextOr(e, "contact", "");
        department := TextOr(e, "department", "");
        status := TextOr(e, "status", "Active");
        position := TextOr(e, "position", "");
        salaryGrade := TextOr(e, "salaryGrade", "");
        hireDate := TextOr(e, "hireDate", "");
      }
    }

    /** `handleSubmit`: refused exactly when a required field is empty;
        otherwise the eight fields as typed and the employee's id. */
    method HandleSubmit() returns (result: SubmitResult)
      ensures result.Rejected? <==> !RequiredFilled(name, email, department, position)
      ensures result.Submitted? ==>
        result.data == Payload(name, email, contact, department, status, position, salaryGrade, hireDate)
        && result.id == FieldOf(employee, "id")
    {
      if !RequiredFilled(name, email, department, position) {
        return Rejected;
      }
      result := Submitted(Payload(name, email, contact, department, status, position, salaryGrade, hireDate),
                          FieldOf(employee, "id"));
    }
  }
}
