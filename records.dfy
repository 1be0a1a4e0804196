/** Records of the realtime store as the components see them: untyped
    JavaScript objects. A record is a map from field name to value; a missing
    field is a missing key, and the spread `{ ...a, ...b }` is `a + b`. */
module Records {

  datatype Option<T> = None | Some(value: T)

  /** The field values the components read: text, a list of text, or a number. */
  datatype Value = Str(s: string) | Strs(items: seq<string>) | Num(n: int)

  type Record = map<string, Value>

  /** `r.k || d` for a text field: the text when it is there and non-empty, else `d`. */
  function TextOr(r: Record, k: string, d: string): string {
    if k in r && r[k].Str? && r[k].s != "" then r[k].s else d
  }

  /** `r.k || d` for a list field: an array, even an empty one, is kept. */
  function ListOr(r: Record, k: string, d: seq<string>): seq<string> {
    if k in r && r[k].Strs? then r[k].items else d
  }

  /** `r.k || 0` for a numeric field. */
  function NumOr(r: Record, k: string): int {
    if k in r && r[k].Num? then r[k].n else 0
  }

  /** `r.k` for a field the code uses as text without a fallback; `None` when it is not text. */
  function TextField(r: Record, k: string): Option<string> {
    if k in r && r[k].Str? then Some(r[k].s) else None
  }

  /** `o?.k`: the field when the record is there and has it. */
  function FieldOf(o: Option<Record>, k: string): Option<Value> {
    if o.Some? && k in o.value then Some(o.value[k]) else None
  }

  /** JavaScript truthiness of a present value: empty text and zero are falsy, any array is truthy. */
  predicate Truthy(v: Value) {
    match v
    case Str(s) => s != ""
    case Strs(_) => true
    case Num(n) => n != 0
  }

  /** A job's four editable fields, `{ title, department, salaryRange, skills }`. */
  function JobFields(title: string, department: string, salaryRange: string, skills: seq<string>): (r: Record)
    ensures r.Keys == {"title", "department", "salaryRange", "skills"}
    ensures r["title"] == Str(title) && r["department"] == Str(department)
    ensures r["salaryRange"] == Str(salaryRange) && r["skills"] == Strs(skills)
  {
    map["title" := Str(title), "department" := Str(department),
        "salaryRange" := Str(salaryRange), "skills" := Strs(skills)]
  }

  /** A job as first stored: its four editable fields and an empty applicant list. */
  function FreshJob(title: string, department: string, salaryRange: string, skills: seq<string>): (r: Record)
    ensures r.Keys == {"title", "department", "salaryRange", "skills", "applicants"}
    ensures r["applicants"] == Strs([])
    ensures r["title"] == Str(title) && r["department"] == Str(department)
    ensures r["salaryRange"] == Str(salaryRange) && r["skills"] == Strs(skills)
  {
    var f := JobFields(title, department, salaryRange, skills);
    var r := f["applicants" := Strs([])];
    assert r["title"] == f["title"];
    assert r["department"] == f["department"];
    assert r["salaryRange"] == f["salaryRange"];
    assert r["skills"] == f["skills"];
    r
  }

  /** `{ ...a, ...b }`: every field of `b`, and the fields of `a` that `b` does not name. */
  function Overlay(a: Record, b: Record): (r: Record)
    ensures r.Keys == a.Keys + b.Keys
    ensures forall k :: k in b ==> r[k] == b[k]
    ensures forall k :: k in a && k !in b ==> r[k] == a[k]
  {
    a + b
  }
}
