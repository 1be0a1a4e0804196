/** The HR job list: a local copy of the job table with inline editing,
    adding and deleting. Each change is written to the store first; the local
    table changes only when that write succeeds. */
module JobList {
  import opened Records
  import opened Text
  import Skills

  /** The shared edit/add form. A text field is `None` when it was prefilled
      from a job that lacks it (JavaScript `undefined`); the skill field is
      always text. */
  datatype Form = Form(title: Option<string>, department: Option<string>,
                       salaryRange: Option<string>, skills: string)

  const EmptyForm := Form(Some(""), Some(""), Some(""), "")

  datatype FormField = Title | Department | SalaryRange | SkillsLine

  /** How a save attempt ends: written, refused for a blank title, the write
      failed, or the handler threw on a missing form field before writing. */
  datatype SaveResult = Saved | TitleRequired | WriteFailed | Aborted

  /** `startEdit`'s prefill: the job's text fields as they are, its skills joined with `', '`. */
  function FormFor(job: Record): Form {
    Form(TextField(job, "title"), TextField(job, "department"), TextField(job, "salaryRange"),
         if "skills" in job && job["skills"].Strs? then Join(job["skills"].items, ", ") else "")
  }

  /** The order in which `saveEdit`/`saveAdd` fail: reading the title throws
      when it is missing, a blank title is refused, a missing department or
      salary range throws while the record is built, and only then is the
      store written. */
  function Outcome(f: Form, writeOk: bool): (r: SaveResult)
    ensures r == Saved <==> f.title.Some? && Trim(f.title.value) != "" && f.department.Some? && f.salaryRange.Some? && writeOk
    ensures r == TitleRequired <==> f.title.Some? && Trim(f.title.value) == ""
  {
    if f.title.None? then Aborted
    else if Trim(f.title.value) == "" then TitleRequired
    else if f.department.None? || f.salaryRange.None? then Aborted
    else if !writeOk then WriteFailed
    else Saved
  }

  /** The names of the fields a save writes. */
  const EditedFields: set<string> := {"title", "department", "salaryRange", "skills"}

  /** `saveEdit`'s record: the old job with the four edited fields laid over
      it, trimmed and parsed; every other field (`applicants`, `vacancies`,
      ...) is kept as it was. */
  function EditedJob(job: Record, title: string, department: string, salaryRange: string, skillsLine: string): (r: Record)
    ensures r.Keys == job.Keys + EditedFields
    ensures forall k :: k in job && k !in EditedFields ==> r[k] == job[k]
    ensures r["title"] == Str(Trim(title)) && r["department"] == Str(Trim(department))
    ensures r["salaryRange"] == Str(Trim(salaryRange)) && r["skills"] == Strs(Skills.Parse(skillsLine))
  {
    var edits := JobFields(Trim(title), Trim(department), Trim(salaryRange), Skills.Parse(skillsLine));
    assert edits.Keys == EditedFields;
    Overlay(job, edits)
  }

  /** `saveAdd`'s record: the four fields, trimmed and parsed, and an empty
      applicant list; nothing else. */
  function NewJob(title: string, department: string, salaryRange: string, skillsLine: string): (r: Record)
    ensures r.Keys == {"title", "department", "salaryRange", "skills", "applicants"}
    ensures r["applicants"] == Strs([])
    ensures r["title"] == Str(Trim(title)) && r["department"] == Str(Trim(department))
    ensures r["salaryRange"] == Str(Trim(salaryRange)) && r["skills"] == Strs(Skills.Parse(skillsLine))
  {
    FreshJob(Trim(title), Trim(department), Trim(salaryRange), Skills.Parse(skillsLine))
  }

  /** A job whose text fields are already trimmed and whose skills are clean
      is left exactly as it was when it is opened for editing and saved
      without changes. */
  lemma UneditedSaveKeepsJob(job: Record)
    requires "title" in job && job["title"].Str? && IsTrimmed(job["title"].s)
    requires "department" in job && job["department"].Str? && IsTrimmed(job["department"].s)
    requires "salaryRange" in job && job["salaryRange"].Str? && IsTrimmed(job["salaryRange"].s)
    requires "skills" in job && job["skills"].Strs? && Skills.AllClean(job["skills"].items)
    ensures var f := FormFor(job);
      EditedJob(job, f.title.value, f.department.value, f.salaryRange.value, f.skills) == job
  {
    var f := FormFor(job);
    var title, department, salaryRange := job["title"].s, job["department"].s, job["salaryRange"].s;
    assert f.title.value == title && f.department.value == department && f.salaryRange.value == salaryRange;
    assert Trim(title) == title by { TrimFixedPoint(title); }
    assert Trim(department) == department by { TrimFixedPoint(department); }
    assert Trim(salaryRange) == salaryRange by { TrimFixedPoint(salaryRange); }
    assert Skills.Parse(f.skills) == job["skills"].items by { Skills.ParseJoinCommaBlank(job["skills"].items); }
    var r := EditedJob(job, title, department, salaryRange, f.skills);
    assert r.Keys == job.Keys;
    forall k | k in r
      ensures r[k] == job[k]
    {
    }
  }

  class JobList {
    var jobs: map<string, Record>
    var editingId: Option<string>
    var adding: bool
    var form: Form

    constructor (initial: map<string, Record>)
      ensures jobs == initial && editingId == None && !adding && form == EmptyForm
    {
      jobs := initial;
      editingId := None;
      adding := false;
      form := EmptyForm;
    }

    /** `startEdit(id)`: only offered for a listed job. */
    method StartEdit(id: string)
      requires id in jobs
      modifies this`editingId, this`form
      ensures editingId == Some(id) && form == FormFor(jobs[id])
    {
      editingId := Some(id);
      form := FormFor(jobs[id]);
    }

    /** Typing into one field of the shared form. */
    method EditField(field: FormField, value: string)
      modifies this`form
      ensures form == match field
        case Title => old(form).(title := Some(value))
        case Department => old(form).(department := Some(value))
        case SalaryRange => old(form).(salaryRange := Some(value))
        case SkillsLine => old(form).(skills := value)
    {
      match field
      case Title => form := form.(title := Some(value));
      case Department => form := form.(department := Some(value));
      case SalaryRange => form := form.(salaryRange := Some(value));
      case SkillsLine => form := form.(skills := value);
    }

    /** `cancelEdit` */
    method CancelEdit()
      modifies this`editingId, this`form
      ensures editingId == None && form == EmptyForm
    {
      editingId := None;
      form := EmptyForm;
    }

    /** `saveEdit`: on success only the edited key changes, to the edited
        record, and editing ends; on any other outcome nothing changes. */
    method SaveEdit(writeOk: bool) returns (result: SaveResult)
      requires editingId.Some?
      modifies this`jobs, this`editingId
      ensures result == Outcome(old(form), writeOk)
      ensures result == Saved ==>
        var id := old(editingId).value;
        var before := if id in old(jobs) then old(jobs)[id] else map[];
        && jobs == old(jobs)[id := EditedJob(before, form.title.value, form.department.value, form.salaryRange.value, form.skills)]
        && editingId == None
      ensures result != Saved ==> jobs == old(jobs) && editingId == old(editingId)
    {
      result := Outcome(form, writeOk);
      if result == Saved {
        var id := editingId.value;
        var before := if id in jobs then jobs[id] else map[];
        jobs := jobs[id := EditedJob(before, form.title.value, form.department.value, form.salaryRange.value, form.skills)];
        editingId := None;
      }
    }

    /** `handleDelete(id)`: after confirmation and a successful remove, exactly `id` is gone. */
    method HandleDelete(id: string, confirmed: bool, writeOk: bool)
      modifies this`jobs
      ensures confirmed && writeOk ==> jobs == old(jobs) - {id}
      ensures !(confirmed && writeOk) ==> jobs == old(jobs)
    {
      if confirmed && writeOk {
        jobs := jobs - {id};
      }
    }

    /** `startAdd` */
    method StartAdd()
      modifies this`adding, this`form
      ensures adding && form == EmptyForm
    {
      adding := true;
      form := EmptyForm;
    }

    /** `saveAdd`: the new record goes under `newId` (the time-based key) and
        adding ends; on any other outcome nothing changes. */
    method SaveAdd(newId: string, writeOk: bool) returns (result: SaveResult)
      modifies this`jobs, this`adding
      ensures result == Outcome(old(form), writeOk)
      ensures result == Saved ==>
        jobs == old(jobs)[newId := NewJob(form.title.value, form.department.value, form.salaryRange.value, form.skills)]
        && !adding
      ensures result != Saved ==> jobs == old(jobs) && adding == old(adding)
    {
      result := Outcome(form, writeOk);
      if result == Saved {
        var job := NewJob(form.title.value, form.department.value, form.salaryRange.value, form.skills);
        jobs := jobs[newId := job];
        adding := false;
      }
    }

    /** `cancelAdd` */
    method CancelAdd()
      modifies this`adding, this`form
      ensures !adding && form == EmptyForm
    {
      adding := false;
      form := EmptyForm;
    }
  }
}
